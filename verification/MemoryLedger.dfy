/**
 Memory accounting: a sandbox-wide total kept beside one charge per address space.
 `Ledger` values are the specification; class `Accounting` is the code that updates
 the two records in place; the laws are about every run of the specification.
 */
module MemoryLedger {

  import opened Prelude
  import opened Bits

  const U64_MAX: nat := 0xFFFF_FFFF_FFFF_FFFF

  function SatAdd(a: u64, b: u64): u64 {
    if a + b > U64_MAX then U64_MAX else a + b
  }

  function SatSub(a: u64, b: u64): u64 {
    if a < b then 0 else a - b
  }

  function Min(a: u64, b: u64): u64 {
    if a <= b then a else b
  }

  function Max(a: u64, b: u64): u64 {
    if a >= b then a else b
  }

  /** The accounting fields of one address space. */
  datatype Space = Space(charged: u64, brkBase: Option<u64>)

  /** The global total, its peak, and every tracked address space. */
  datatype Ledger = Ledger(used: u64, peak: u64, spaces: map<int, Space>)

  datatype Event =
    | Mmap(len: u64, flags: u64)
    | Munmap(unmapLen: u64)
    | Brk(newBrk: u64)
    | Mremap(oldLen: u64, newLen: u64)
    | Shmget(size: u64)

  datatype Action = Continue | KillTask

  /** `flags & MAP_ANONYMOUS != 0`, the flag being bit 5. */
  predicate Anonymous(flags: u64) {
    (flags / 0x20) % 2 == 1
  }

  lemma AnonymousIff(flags: u64)
    ensures Anonymous(flags) <==> Bit(flags, 5)
  {
    var a := flags / 2;
    var b := a / 2;
    var c := b / 2;
    var d := c / 2;
    assert Bit(flags, 5) == Bit(a, 4) == Bit(b, 3) == Bit(c, 2) == Bit(d, 1) == Bit(d / 2, 0);
  }

  predicate Tracked(l: Ledger, sp: Option<int>) {
    sp.Some? ==> sp.value in l.spaces
  }

  // ---- The four ledger movements ----

  function Charge(l: Ledger, sp: Option<int>, bytes: u64): Ledger
    requires Tracked(l, sp)
  {
    var used := SatAdd(l.used, bytes);
    var spaces :=
      if sp.Some? then
        var per := l.spaces[sp.value];
        l.spaces[sp.value := per.(charged := SatAdd(per.charged, bytes))]
      else l.spaces;
    Ledger(used, Max(l.peak, used), spaces)
  }

  function Credit(l: Ledger, sp: Option<int>, bytes: u64): Ledger
    requires Tracked(l, sp)
  {
    if sp.Some? then
      var per := l.spaces[sp.value];
      var refund := Min(bytes, per.charged);
      Ledger(SatSub(l.used, refund), l.peak, l.spaces[sp.value := per.(charged := per.charged - refund)])
    else
      l.(used := SatSub(l.used, bytes))
  }

  function Release(l: Ledger, space: int): Ledger
    requires space in l.spaces
  {
    var per := l.spaces[space];
    Ledger(SatSub(l.used, per.charged), l.peak, l.spaces[space := per.(charged := 0)])
  }

  function Reconcile(l: Ledger, sp: Option<int>, measured: Option<u64>): Ledger
    requires Tracked(l, sp)
  {
    if sp.None? || measured.None? || measured.value <= l.spaces[sp.value].charged then l
    else
      var per := l.spaces[sp.value];
      var used := SatAdd(l.used, measured.value - per.charged);
      Ledger(used, Max(l.peak, used), l.spaces[sp.value := per.(charged := measured.value)])
  }

  predicate WouldExceed(l: Ledger, bytes: u64, limit: u64) {
    SatAdd(l.used, bytes) > limit
  }

  function ChargeOrKill(l: Ledger, sp: Option<int>, bytes: u64, limit: u64): (Ledger, Action)
    requires Tracked(l, sp)
  {
    if WouldExceed(l, bytes, limit) then (l, KillTask) else (Charge(l, sp, bytes), Continue)
  }

  function SetBase(l: Ledger, space: int, brk: u64): Ledger
    requires space in l.spaces
  {
    l.(spaces := l.spaces[space := l.spaces[space].(brkBase := Some(brk))])
  }

  function HandleBrk(l: Ledger, space: int, newBrk: u64, limit: u64): (Ledger, Action)
    requires space in l.spaces
  {
    var base := if l.spaces[space].brkBase.None? then newBrk else l.spaces[space].brkBase.value;
    var seeded := SetBase(l, space, base);
    if newBrk > base then
      var (charged, act) := ChargeOrKill(seeded, Some(space), newBrk - base, limit);
      if act.KillTask? then (charged, act) else (SetBase(charged, space, newBrk), Continue)
    else if newBrk < base then
      (SetBase(Credit(seeded, Some(space), base - newBrk), space, newBrk), Continue)
    else (seeded, Continue)
  }

  /** One memory notification from the address space `sp` (None: an untracked task), with
      the footprint the kernel reports for it, under the limit in force. */
  function HandleMemory(l: Ledger, sp: Option<int>, ev: Event, limit: u64, measured: Option<u64>): (Ledger, Action)
    requires Tracked(l, sp)
  {
    if ev.Brk? && ev.newBrk == 0 then (l, Continue)
    else
      var l1 := if ev.Munmap? then l else Reconcile(l, sp, measured);
      match ev
      case Mmap(len, flags) =>
        if Anonymous(flags) then ChargeOrKill(l1, sp, len, limit) else (l1, Continue)
      case Munmap(len) => (Credit(l1, sp, len), Continue)
      case Brk(newBrk) =>
        if sp.None? then (l1, Continue) else HandleBrk(l1, sp.value, newBrk, limit)
      case Mremap(oldLen, newLen) =>
        if newLen > oldLen then ChargeOrKill(l1, sp, newLen - oldLen, limit)
        else if newLen < oldLen then (Credit(l1, sp, oldLen - newLen), Continue)
        else (l1, Continue)
      case Shmget(size) =>
        if size > 0 && WouldExceed(l1, size, limit) then (l1, KillTask)
        else (Charge(l1, sp, size), Continue)
  }

  function HandleExec(l: Ledger, space: int): Ledger
    requires space in l.spaces
  {
    var r := Release(l, space);
    r.(spaces := r.spaces[space := r.spaces[space].(brkBase := None)])
  }

  /** Exit: the charge is credited back, then the entry is dropped from the index. Here nothing comes in between;
      `Office` takes the two steps apart. */
  function HandleExit(l: Ledger, space: int): Ledger
    requires space in l.spaces
  {
    var r := Release(l, space);
    r.(spaces := r.spaces - {space})
  }

  // ---- The code, updating the records in place ----

  class Accounting {
    var memUsed: u64
    var peakMemUsed: u64
    var spaces: map<int, Space>

    ghost function Value(): Ledger
      reads this
    {
      Ledger(memUsed, peakMemUsed, spaces)
    }

    constructor ()
      ensures Value() == Ledger(0, 0, map[])
    {
      memUsed, peakMemUsed, spaces := 0, 0, map[];
    }

    method ReleaseCharge(space: int)
      requires space in spaces
      modifies this
      ensures Value() == Release(old(Value()), space)
    {
      var per := spaces[space];
      memUsed := SatSub(memUsed, per.charged);
      spaces := spaces[space := per.(charged := 0)];
    }

    method ChargeBytes(sp: Option<int>, bytes: u64)
      requires Tracked(Value(), sp)
      modifies this
      ensures Value() == Charge(old(Value()), sp, bytes)
    {
      memUsed := SatAdd(memUsed, bytes);
      peakMemUsed := Max(peakMemUsed, memUsed);
      if sp.Some? {
        var per := spaces[sp.value];
        spaces := spaces[sp.value := per.(charged := SatAdd(per.charged, bytes))];
      }
    }

    method CreditBytes(sp: Option<int>, bytes: u64)
      requires Tracked(Value(), sp)
      modifies this
      ensures Value() == Credit(old(Value()), sp, bytes)
    {
      match sp {
        case Some(space) =>
          var per := spaces[space];
          var refund := Min(bytes, per.charged);
          spaces := spaces[space := per.(charged := per.charged - refund)];
          memUsed := SatSub(memUsed, refund);
        case None =>
          memUsed := SatSub(memUsed, bytes);
      }
    }

    method ReconcileFloor(sp: Option<int>, measured: Option<u64>)
      requires Tracked(Value(), sp)
      modifies this
      ensures Value() == Reconcile(old(Value()), sp, measured)
    {
      if sp.None? || measured.None? {
        return;
      }
      var per := spaces[sp.value];
      if measured.value > per.charged {
        var correction := measured.value - per.charged;
        spaces := spaces[sp.value := per.(charged := measured.value)];
        memUsed := SatAdd(memUsed, correction);
        peakMemUsed := Max(peakMemUsed, memUsed);
      }
    }

    method OnMemory(sp: Option<int>, ev: Event, limit: u64, measured: Option<u64>) returns (act: Action)
      requires Tracked(Value(), sp)
      modifies this
      ensures (Value(), act) == HandleMemory(old(Value()), sp, ev, limit, measured)
    {
      act := Continue;
      if ev.Brk? && ev.newBrk == 0 {
        return;
      }
      if !ev.Munmap? {
        ReconcileFloor(sp, measured);
      }
      match ev {
        case Mmap(len, flags) =>
          if Anonymous(flags) {
            if SatAdd(memUsed, len) > limit {
              return KillTask;
            }
            ChargeBytes(sp, len);
          }
        case Munmap(len) =>
          CreditBytes(sp, len);
        case Brk(newBrk) =>
          if sp.Some? {
            act := OnBrk(sp.value, newBrk, limit);
          }
        case Mremap(oldLen, newLen) =>
          if newLen > oldLen {
            if SatAdd(memUsed, newLen - oldLen) > limit {
              return KillTask;
            }
            ChargeBytes(sp, newLen - oldLen);
          } else if newLen < oldLen {
            CreditBytes(sp, oldLen - newLen);
          }
        case Shmget(size) =>
          if size > 0 && SatAdd(memUsed, size) > limit {
            return KillTask;
          }
          ChargeBytes(sp, size);
      }
    }

    method OnBrk(space: int, newBrk: u64, limit: u64) returns (act: Action)
      requires space in spaces
      modifies this
      ensures (Value(), act) == HandleBrk(old(Value()), space, newBrk, limit)
    {
      act := Continue;
      if spaces[space].brkBase.None? {
        spaces := spaces[space := spaces[space].(brkBase := Some(newBrk))];
      }
      var base := spaces[space].brkBase.value;
      assert Value() == SetBase(old(Value()), space, base);
      if newBrk > base {
        if SatAdd(memUsed, newBrk - base) > limit {
          return KillTask;
        }
        ChargeBytes(Some(space), newBrk - base);
        spaces := spaces[space := spaces[space].(brkBase := Some(newBrk))];
      } else if newBrk < base {
        CreditBytes(Some(space), base - newBrk);
        spaces := spaces[space := spaces[space].(brkBase := Some(newBrk))];
      }
    }

    method OnExec(space: int)
      requires space in spaces
      modifies this
      ensures Value() == HandleExec(old(Value()), space)
    {
      ReleaseCharge(space);
      spaces := spaces[space := spaces[space].(brkBase := None)];
    }

    /** `unregister`, the second step of an exit: whatever is still charged goes with the entry. */
    method Unregister(space: int)
      modifies this
      ensures Value() == old(Value()).(spaces := old(spaces) - {space})
    {
      spaces := spaces - {space};
    }

    /** `cleanup_pid` when no notification is handled between its steps. */
    method OnExit(space: int)
      requires space in spaces
      modifies this
      ensures Value() == HandleExit(old(Value()), space)
    {
      ReleaseCharge(space);
      Unregister(space);
    }
  }

  // ---- Sums over address spaces ----

  ghost function Sum(m: map<int, Space>): nat {
    if forall k :: k !in m then 0
    else
      var k :| k in m;
      m[k].charged + Sum(m - {k})
  }

  lemma {:induction false} SumRemove(m: map<int, Space>, k: int)
    requires k in m
    ensures Sum(m) == m[k].charged + Sum(m - {k})
    decreases |m|
  {
    var j :| j in m && Sum(m) == m[j].charged + Sum(m - {j});
    if j != k {
      SumRemove(m - {j}, k);
      SumRemove(m - {k}, j);
      assert m - {j} - {k} == m - {k} - {j};
    }
  }

  lemma SumUpdate(m: map<int, Space>, k: int, v: Space)
    ensures Sum(m[k := v]) == v.charged + Sum(m - {k})
    ensures k in m ==> Sum(m[k := v]) == Sum(m) - m[k].charged + v.charged && m[k].charged <= Sum(m)
    ensures k !in m ==> Sum(m[k := v]) == Sum(m) + v.charged
  {
    SumRemove(m[k := v], k);
    assert m[k := v] - {k} == m - {k};
    if k in m {
      SumRemove(m, k);
    } else {
      assert m - {k} == m;
    }
  }

  // ---- Conservation ----

  /** The total is the sum of the charges, and the peak has seen it. */
  ghost predicate Balanced(l: Ledger) {
    l.used == Sum(l.spaces) && l.used <= l.peak
  }

  /** Only the entry of `space` may differ, and no other address space comes or goes. */
  predicate OnlySpace(l: Ledger, l': Ledger, space: int) {
    && l'.spaces.Keys == l.spaces.Keys
    && (forall k :: k in l.spaces && k != space ==> l'.spaces[k] == l.spaces[k])
  }

  /** Measuring this space cannot push the total past the u64 range. */
  predicate FloorFits(l: Ledger, space: int, measured: Option<u64>)
    requires space in l.spaces
  {
    measured.Some? && measured.value > l.spaces[space].charged
    ==> l.used + (measured.value - l.spaces[space].charged) <= U64_MAX
  }

  lemma ReconcileKeeps(l: Ledger, space: int, measured: Option<u64>)
    requires space in l.spaces && Balanced(l) && FloorFits(l, space, measured)
    ensures var l' := Reconcile(l, Some(space), measured);
            Balanced(l') && OnlySpace(l, l', space) && l'.spaces[space].charged >= l.spaces[space].charged
  {
    if measured.Some? {
      SumUpdate(l.spaces, space, l.spaces[space].(charged := measured.value));
    }
  }

  lemma ChargeKeeps(l: Ledger, space: int, bytes: u64)
    requires space in l.spaces && Balanced(l) && l.used + bytes <= U64_MAX
    ensures var l' := Charge(l, Some(space), bytes);
            Balanced(l') && OnlySpace(l, l', space) && l'.used == l.used + bytes
  {
    var per := l.spaces[space];
    SumUpdate(l.spaces, space, per.(charged := SatAdd(per.charged, bytes)));
  }

  lemma CreditKeeps(l: Ledger, space: int, bytes: u64)
    requires space in l.spaces && Balanced(l)
    ensures var l' := Credit(l, Some(space), bytes);
            && Balanced(l') && OnlySpace(l, l', space) && l'.used <= l.used
            && l'.spaces[space].charged == SatSub(l.spaces[space].charged, bytes)
  {
    var per := l.spaces[space];
    SumUpdate(l.spaces, space, per.(charged := per.charged - Min(bytes, per.charged)));
  }

  lemma SetBaseKeeps(l: Ledger, space: int, brk: u64)
    requires space in l.spaces && Balanced(l)
    ensures Balanced(SetBase(l, space, brk)) && OnlySpace(l, SetBase(l, space, brk), space)
  {
    SumUpdate(l.spaces, space, l.spaces[space].(brkBase := Some(brk)));
  }

  lemma ChargeOrKillKeeps(l: Ledger, space: int, bytes: u64, limit: u64)
    requires space in l.spaces && Balanced(l) && limit < U64_MAX
    ensures var (l', act) := ChargeOrKill(l, Some(space), bytes, limit);
            Balanced(l') && OnlySpace(l, l', space) && (act.Continue? ==> l'.used <= limit)
  {
    if !WouldExceed(l, bytes, limit) {
      ChargeKeeps(l, space, bytes);
    }
  }

  lemma HandleBrkKeeps(l: Ledger, space: int, newBrk: u64, limit: u64)
    requires space in l.spaces && Balanced(l) && limit < U64_MAX
    ensures var (l', act) := HandleBrk(l, space, newBrk, limit);
            && Balanced(l') && OnlySpace(l, l', space)
            && (act.Continue? && l'.used > l.used ==> l'.used <= limit)
  {
    var base := if l.spaces[space].brkBase.None? then newBrk else l.spaces[space].brkBase.value;
    var seeded := SetBase(l, space, base);
    SetBaseKeeps(l, space, base);
    if newBrk > base {
      var (charged, act) := ChargeOrKill(seeded, Some(space), newBrk - base, limit);
      ChargeOrKillKeeps(seeded, space, newBrk - base, limit);
      SetBaseKeeps(charged, space, newBrk);
    } else if newBrk < base {
      CreditKeeps(seeded, space, base - newBrk);
      SetBaseKeeps(Credit(seeded, Some(space), base - newBrk), space, newBrk);
    }
  }

  /** Does this event ask for memory on the ledger `l` of its space? */
  predicate Allocates(l: Ledger, space: int, ev: Event)
    requires space in l.spaces
  {
    match ev
    case Mmap(_, flags) => Anonymous(flags)
    case Munmap(_) => false
    case Brk(newBrk) => newBrk != 0 && l.spaces[space].brkBase.Some? && newBrk > l.spaces[space].brkBase.value
    case Mremap(oldLen, newLen) => newLen > oldLen
    case Shmget(size) => size > 0
  }

  /** One notification: the books stay balanced, no other space's charge moves, and an
      allocation that is let through leaves the total within the limit in force. */
  lemma HandleMemoryKeeps(l: Ledger, space: int, ev: Event, limit: u64, measured: Option<u64>)
    requires space in l.spaces && Balanced(l) && limit < U64_MAX && FloorFits(l, space, measured)
    ensures var (l', act) := HandleMemory(l, Some(space), ev, limit, measured);
            && Balanced(l') && OnlySpace(l, l', space)
            && (act.Continue? && Allocates(l, space, ev) ==> l'.used <= limit)
  {
    if !(ev.Brk? && ev.newBrk == 0) {
      var l1 := if ev.Munmap? then l else Reconcile(l, Some(space), measured);
      ReconcileKeeps(l, space, measured);
      match ev
      case Mmap(len, flags) => ChargeOrKillKeeps(l1, space, len, limit);
      case Munmap(len) => CreditKeeps(l1, space, len);
      case Brk(newBrk) =>
        HandleBrkKeeps(l1, space, newBrk, limit);
        assert l1.spaces[space].brkBase == l.spaces[space].brkBase;
        if Allocates(l, space, ev) && HandleBrk(l1, space, newBrk, limit).1.Continue? {
          BrkGrowthWithinLimit(l1, space, newBrk, limit);
        }
      case Mremap(oldLen, newLen) =>
        if newLen > oldLen {
          ChargeOrKillKeeps(l1, space, newLen - oldLen, limit);
        } else if newLen < oldLen {
          CreditKeeps(l1, space, oldLen - newLen);
        }
      case Shmget(size) =>
        if size > 0 {
          ChargeOrKillKeeps(l1, space, size, limit);
        } else {
          ChargeKeeps(l1, space, size);
        }
    }
  }

  lemma BrkGrowthWithinLimit(l: Ledger, space: int, newBrk: u64, limit: u64)
    requires space in l.spaces && l.spaces[space].brkBase.Some? && newBrk > l.spaces[space].brkBase.value
    requires HandleBrk(l, space, newBrk, limit).1.Continue?
    ensures HandleBrk(l, space, newBrk, limit).0.used <= limit
  {
  }

  lemma HandleExecKeeps(l: Ledger, space: int)
    requires space in l.spaces && Balanced(l)
    ensures var l' := HandleExec(l, space);
            && Balanced(l') && OnlySpace(l, l', space) && l'.spaces[space] == Space(0, None)
            && l'.used == l.used - l.spaces[space].charged
  {
    SumUpdate(l.spaces, space, Space(0, None));
    assert HandleExec(l, space).spaces == l.spaces[space := Space(0, None)];
  }

  lemma HandleExitKeeps(l: Ledger, space: int)
    requires space in l.spaces && Balanced(l)
    ensures var l' := HandleExit(l, space);
            Balanced(l') && l'.spaces == l.spaces - {space} && l'.used == l.used - l.spaces[space].charged
  {
    SumRemove(l.spaces, space);
    assert HandleExit(l, space).spaces == l.spaces - {space};
  }

  // ---- Whole runs ----

  datatype Op =
    | Register(space: int)
    | Memory(space: int, ev: Event, limit: u64, measured: Option<u64>)
    | Exec(space: int)
    | Exit(space: int)

  /** A step the supervisor can take: only tracked spaces act. */
  predicate Enabled(l: Ledger, op: Op) {
    match op
    case Register(space) => space !in l.spaces
    case Memory(space, _, limit, measured) => space in l.spaces && limit < U64_MAX && FloorFits(l, space, measured)
    case Exec(space) => space in l.spaces
    case Exit(space) => space in l.spaces
  }

  function Next(l: Ledger, op: Op): Ledger
    requires Enabled(l, op)
  {
    match op
    case Register(space) => l.(spaces := l.spaces[space := Space(0, None)])
    case Memory(space, ev, limit, measured) => HandleMemory(l, Some(space), ev, limit, measured).0
    case Exec(space) => HandleExec(l, space)
    case Exit(space) => HandleExit(l, space)
  }

  predicate Runs(l: Ledger, ops: seq<Op>)
    decreases |ops|
  {
    ops == [] || (Enabled(l, ops[0]) && Runs(Next(l, ops[0]), ops[1..]))
  }

  function After(l: Ledger, ops: seq<Op>): Ledger
    requires Runs(l, ops)
    decreases |ops|
  {
    if ops == [] then l else After(Next(l, ops[0]), ops[1..])
  }

  lemma NextKeeps(l: Ledger, op: Op)
    requires Balanced(l) && Enabled(l, op)
    ensures Balanced(Next(l, op))
    ensures Next(l, op).spaces.Keys == (match op
                                        case Register(k) => l.spaces.Keys + {k}
                                        case Exit(k) => l.spaces.Keys - {k}
                                        case _ => l.spaces.Keys)
    ensures forall k :: k in l.spaces && k != op.space ==>
                        k in Next(l, op).spaces && Next(l, op).spaces[k] == l.spaces[k]
  {
    match op
    case Register(space) => SumUpdate(l.spaces, space, Space(0, None));
    case Memory(space, ev, limit, measured) => HandleMemoryKeeps(l, space, ev, limit, measured);
    case Exec(space) => HandleExecKeeps(l, space);
    case Exit(space) => HandleExitKeeps(l, space);
  }

  /** In every run from an empty sandbox the total is the sum of the outstanding charges
      and never above the recorded peak; when the last process is gone it is zero. */
  lemma {:induction false} RunConserves(l: Ledger, ops: seq<Op>)
    requires Balanced(l) && Runs(l, ops)
    ensures Balanced(After(l, ops)) && After(l, ops).peak >= l.peak
    ensures After(l, ops).spaces == map[] ==> After(l, ops).used == 0
    decreases |ops|
  {
    if ops != [] {
      NextKeeps(l, ops[0]);
      PeakGrows(l, ops[0]);
      RunConserves(Next(l, ops[0]), ops[1..]);
    }
  }

  lemma PeakGrows(l: Ledger, op: Op)
    requires Enabled(l, op)
    ensures Next(l, op).peak >= l.peak
  {
  }

  /** An untracked task breaks the books exactly when its event moves bytes: with no
      address space to book against, only the global total changes. Nothing moves when
      the limit refuses the event, and the guard for that is on the state before it. */
  lemma UntrackedBalancedIff(l: Ledger, ev: Event, limit: u64, measured: Option<u64>)
    requires Balanced(l) && limit < U64_MAX
    ensures Balanced(HandleMemory(l, None, ev, limit, measured).0) <==>
            (match ev
             case Mmap(len, flags) => !Anonymous(flags) || len == 0 || WouldExceed(l, len, limit)
             case Munmap(len) => len == 0 || l.used == 0
             case Brk(_) => true
             case Mremap(oldLen, newLen) =>
               if newLen > oldLen then WouldExceed(l, newLen - oldLen, limit) else newLen == oldLen || l.used == 0
             case Shmget(size) => size == 0 || WouldExceed(l, size, limit))
  {
  }

  // ---- How far the books move ----

  /** The bytes an event asks for, negative when it gives some back. A break is measured from the last one. */
  function Asks(base: Option<u64>, ev: Event): int {
    match ev
    case Mmap(len, flags) => if Anonymous(flags) then len else 0
    case Munmap(len) => 0 - len
    case Brk(newBrk) => if newBrk == 0 || base.None? then 0 else newBrk - base.value
    case Mremap(oldLen, newLen) => newLen - oldLen
    case Shmget(size) => size
  }

  /** Events before which the kernel's footprint is not consulted. */
  predicate Unmeasured(ev: Event) {
    ev.Munmap? || ev == Brk(0)
  }

  function Larger(a: int, b: int): int {
    if a >= b then a else b
  }

  /** A request that is judged: one for bytes, and any anonymous mapping. */
  predicate Judged(ev: Event, asks: int) {
    asks > 0 || (ev.Mmap? && Anonymous(ev.flags))
  }

  /** A step from `used`, `peak` and `charge`, raised to the footprint `floor`, by `asks` under `limit`. */
  ghost predicate Moves(used: int, peak: int, charge: int, floor: int, asks: int, judged: bool, limit: int,
                        used': int, peak': int, charge': int, killed: bool)
  {
    var total := used + floor - charge;
    && (killed <==> judged && total + asks > limit)
    && charge' == (if killed then floor else Larger(0, floor + asks))
    && used' == total + charge' - floor
    && peak' == Larger(peak, Larger(total, used'))
  }

  /** The footprint an event is booked on: the charge, or the measurement if that is larger. */
  function FloorOf(charge: u64, ev: Event, measured: Option<u64>): int {
    if Unmeasured(ev) || measured.None? then charge else Larger(charge, measured.value)
  }

  lemma ChargeWithin(l: Ledger, space: int)
    requires space in l.spaces && Balanced(l)
    ensures l.spaces[space].charged <= l.used <= l.peak
  {
    SumUpdate(l.spaces, space, l.spaces[space]);
  }

  lemma ReconcileMoves(l: Ledger, space: int, measured: Option<u64>)
    requires space in l.spaces && l.used <= l.peak && FloorFits(l, space, measured)
    ensures var l1, c := Reconcile(l, Some(space), measured), l.spaces[space].charged;
            var f := if measured.None? then c else Larger(c, measured.value);
            && l1.used == l.used + f - c && l1.peak == Larger(l.peak, l1.used)
            && l1.spaces[space] == l.spaces[space].(charged := f)
  {
  }

  lemma ChargeOrKillMoves(l: Ledger, space: int, bytes: u64, limit: u64)
    requires space in l.spaces && l.spaces[space].charged <= l.used <= l.peak && limit < U64_MAX
    ensures var (l', act) := ChargeOrKill(l, Some(space), bytes, limit);
            && Moves(l.used, l.peak, l.spaces[space].charged, l.spaces[space].charged, bytes, true, limit,
                     l'.used, l'.peak, l'.spaces[space].charged, act.KillTask?)
            && l'.spaces[space].brkBase == l.spaces[space].brkBase
  {
  }

  lemma CreditMoves(l: Ledger, space: int, bytes: u64, limit: u64)
    requires space in l.spaces && l.spaces[space].charged <= l.used <= l.peak
    ensures var l' := Credit(l, Some(space), bytes);
            && Moves(l.used, l.peak, l.spaces[space].charged, l.spaces[space].charged, 0 - bytes, false, limit,
                     l'.used, l'.peak, l'.spaces[space].charged, false)
            && l'.spaces[space].brkBase == l.spaces[space].brkBase
  {
  }

  lemma BrkMoves(l: Ledger, space: int, newBrk: u64, limit: u64)
    requires space in l.spaces && l.spaces[space].charged <= l.used <= l.peak && limit < U64_MAX && newBrk != 0
    ensures var per := l.spaces[space];
            var (l', act) := HandleBrk(l, space, newBrk, limit);
            var asks := Asks(per.brkBase, Brk(newBrk));
            && Moves(l.used, l.peak, per.charged, per.charged, asks, asks > 0, limit,
                     l'.used, l'.peak, l'.spaces[space].charged, act.KillTask?)
            && l'.spaces[space].brkBase == if act.KillTask? then per.brkBase else Some(newBrk)
  {
    var base := if l.spaces[space].brkBase.None? then newBrk else l.spaces[space].brkBase.value;
    var seeded := SetBase(l, space, base);
    if newBrk > base {
      ChargeOrKillMoves(seeded, space, newBrk - base, limit);
    } else if newBrk < base {
      CreditMoves(seeded, space, base - newBrk, limit);
    }
  }

  /** The step on a ledger already raised to the footprint. */
  lemma BookedMoves(l: Ledger, space: int, ev: Event, limit: u64)
    requires space in l.spaces && l.spaces[space].charged <= l.used <= l.peak && limit < U64_MAX
    ensures var per := l.spaces[space];
            var (l', act) := HandleMemory(l, Some(space), ev, limit, None);
            var asks := Asks(per.brkBase, ev);
            && Moves(l.used, l.peak, per.charged, per.charged, asks, Judged(ev, asks), limit,
                     l'.used, l'.peak, l'.spaces[space].charged, act.KillTask?)
            && l'.spaces[space].brkBase == (if ev.Brk? && ev.newBrk != 0 && act.Continue? then Some(ev.newBrk)
                                            else per.brkBase)
  {
    match ev
    case Mmap(len, flags) =>
      if Anonymous(flags) {
        ChargeOrKillMoves(l, space, len, limit);
      }
    case Munmap(len) => CreditMoves(l, space, len, limit);
    case Brk(newBrk) =>
      if newBrk != 0 {
        BrkMoves(l, space, newBrk, limit);
      }
    case Mremap(oldLen, newLen) =>
      if newLen > oldLen {
        ChargeOrKillMoves(l, space, newLen - oldLen, limit);
      } else if newLen < oldLen {
        CreditMoves(l, space, oldLen - newLen, limit);
      }
    case Shmget(size) =>
      if size > 0 {
        ChargeOrKillMoves(l, space, size, limit);
      }
  }

  /**
   One notification in numbers. The charge is first raised to the measured footprint; a request is refused exactly
   when the total so corrected and the request pass the limit; otherwise charge and total move by the request, the
   charge not below zero; and the peak is the largest total on the way.
   */
  lemma MemoryMoves(l: Ledger, space: int, ev: Event, limit: u64, measured: Option<u64>)
    requires space in l.spaces && Balanced(l) && limit < U64_MAX && FloorFits(l, space, measured)
    ensures var per := l.spaces[space];
            var (l', act) := HandleMemory(l, Some(space), ev, limit, measured);
            var asks := Asks(per.brkBase, ev);
            && Moves(l.used, l.peak, per.charged, FloorOf(per.charged, ev, measured), asks, Judged(ev, asks), limit,
                     l'.used, l'.peak, l'.spaces[space].charged, act.KillTask?)
            && l'.spaces[space].brkBase == (if ev.Brk? && ev.newBrk != 0 && act.Continue? then Some(ev.newBrk)
                                            else per.brkBase)
  {
    ChargeWithin(l, space);
    if Unmeasured(ev) {
      BookedMoves(l, space, ev, limit);
      assert HandleMemory(l, Some(space), ev, limit, measured) == HandleMemory(l, Some(space), ev, limit, None);
    } else {
      var l1 := Reconcile(l, Some(space), measured);
      ReconcileMoves(l, space, measured);
      BookedMoves(l1, space, ev, limit);
      assert HandleMemory(l, Some(space), ev, limit, measured) == HandleMemory(l1, Some(space), ev, limit, None);
    }
  }

  /** A task no entry exists for moves only the total, never below zero; its breaks are not booked. */
  lemma UntrackedMoves(l: Ledger, ev: Event, limit: u64, measured: Option<u64>)
    requires l.used <= l.peak && limit < U64_MAX
    ensures var (l', act) := HandleMemory(l, None, ev, limit, measured);
            var asks := Asks(None, ev);
            var killed := Judged(ev, asks) && l.used + asks > limit;
            && (act.KillTask? <==> killed) && l'.spaces == l.spaces
            && l'.used == (if killed then l.used else Larger(0, l.used + asks))
            && l'.peak == Larger(l.peak, l'.used)
  {
  }

  /** The totals a run passes through, the corrected one of each notification before the final one. */
  function Totals(l: Ledger, ops: seq<Op>): seq<int>
    requires Runs(l, ops)
    decreases |ops|
  {
    if ops == [] then []
    else
      var l' := Next(l, ops[0]);
      (if ops[0].Memory? then [Corrected(l, ops[0])] else []) + [l'.used] + Totals(l', ops[1..])
  }

  /** The total once the space of the notification is raised to its footprint. */
  function Corrected(l: Ledger, op: Op): int
    requires op.Memory? && op.space in l.spaces
  {
    var charge := l.spaces[op.space].charged;
    l.used + FloorOf(charge, op.ev, op.measured) - charge
  }

  /** `m` is in `s` or is `base`, and nothing there is larger. */
  predicate Highest(m: int, base: int, s: seq<int>) {
    (m == base || m in s) && base <= m && forall x :: x in s ==> x <= m
  }

  /** After every run the recorded peak is the largest total there has been. */
  lemma {:induction false} PeakIsHighest(l: Ledger, ops: seq<Op>)
    requires Balanced(l) && Runs(l, ops)
    ensures Highest(After(l, ops).peak, l.peak, Totals(l, ops))
    decreases |ops|
  {
    if ops != [] {
      var op, l' := ops[0], Next(l, ops[0]);
      NextKeeps(l, op);
      PeakIsHighest(l', ops[1..]);
      if op.Memory? {
        MemoryMoves(l, op.space, op.ev, op.limit, op.measured);
        HighestCons(After(l, ops).peak, l.peak, l'.peak, [Corrected(l, op)] + [l'.used], Totals(l', ops[1..]));
      } else {
        HighestCons(After(l, ops).peak, l.peak, l'.peak, [] + [l'.used], Totals(l', ops[1..]));
      }
    }
  }

  lemma HighestCons(m: int, base: int, base': int, head: seq<int>, tail: seq<int>)
    requires Highest(m, base', tail) && Highest(base', base, head)
    ensures Highest(m, base, head + tail)
  {
  }

  // ---- A charge is what its requests come to ----

  /** The requests of `space` that a run lets through, in order. */
  function Granted(l: Ledger, ops: seq<Op>, space: int): seq<int>
    requires Runs(l, ops)
    decreases |ops|
  {
    if ops == [] then [] else GrantedBy(l, ops[0], space) + Granted(Next(l, ops[0]), ops[1..], space)
  }

  function GrantedBy(l: Ledger, op: Op, space: int): seq<int>
    requires Enabled(l, op)
  {
    if op.Memory? && op.space == space && HandleMemory(l, Some(space), op.ev, op.limit, op.measured).1.Continue?
    then [Asks(l.spaces[space].brkBase, op.ev)] else []
  }

  /** A step of `space` is a memory event whose measurement is within the ledger. */
  predicate SteadyStep(l: Ledger, op: Op, space: int) {
    space in l.spaces &&
    (op.space == space ==>
       op.Memory? && (op.measured.Some? ==> op.measured.value <= l.spaces[space].charged))
  }

  /** `space` only uses memory, and no measurement of it exceeds its ledger. */
  predicate Steady(l: Ledger, ops: seq<Op>, space: int)
    requires Runs(l, ops)
    decreases |ops|
  {
    ops == [] ||
    (SteadyStep(l, ops[0], space) && Steady(Next(l, ops[0]), ops[1..], space))
  }

  function Total(s: seq<int>): int {
    if s == [] then 0 else Total(s[..|s| - 1]) + s[|s| - 1]
  }

  /** The lowest sum of the first requests, none included. */
  function LowPoint(s: seq<int>): int {
    if s == [] then 0 else var low := LowPoint(s[..|s| - 1]); if Total(s) < low then Total(s) else low
  }

  /** A charge is the sum of the requests above its lowest point. */
  predicate SumReflected(charge: int, s: seq<int>) {
    charge == Total(s) - LowPoint(s)
  }

  lemma SnocReflects(s: seq<int>, a: int)
    ensures Total(s + [a]) - LowPoint(s + [a]) == Larger(0, Total(s) - LowPoint(s) + a)
  {
    assert (s + [a])[..|s|] == s;
  }

  lemma StepReflectsSum(l: Ledger, op: Op, space: int, seen: seq<int>)
    requires Balanced(l) && Enabled(l, op) && SteadyStep(l, op, space)
    requires SumReflected(l.spaces[space].charged, seen)
    ensures space in Next(l, op).spaces
    ensures SumReflected(Next(l, op).spaces[space].charged, seen + GrantedBy(l, op, space))
  {
    NextKeeps(l, op);
    if op.space == space {
      var act := HandleMemory(l, Some(space), op.ev, op.limit, op.measured).1;
      SteadyMoves(l, space, op.ev, op.limit, op.measured);
      SumMoves(seen, l.spaces[space].charged, Asks(l.spaces[space].brkBase, op.ev), act.Continue?,
               Next(l, op).spaces[space].charged, GrantedBy(l, op, space));
    } else {
      assert seen + [] == seen;
    }
  }

  /** With the measurement within the ledger the charge moves by the request alone. */
  lemma SteadyMoves(l: Ledger, space: int, ev: Event, limit: u64, measured: Option<u64>)
    requires space in l.spaces && Balanced(l) && limit < U64_MAX
    requires measured.Some? ==> measured.value <= l.spaces[space].charged
    ensures var c, (l', act) := l.spaces[space].charged, HandleMemory(l, Some(space), ev, limit, measured);
            l'.spaces[space].charged == if act.Continue? then Larger(0, c + Asks(l.spaces[space].brkBase, ev)) else c
  {
    MemoryMoves(l, space, ev, limit, measured);
  }

  lemma SumMoves(seen: seq<int>, charge: int, asks: int, granted: bool, charge': int, more: seq<int>)
    requires SumReflected(charge, seen) && charge' == if granted then Larger(0, charge + asks) else charge
    requires more == if granted then [asks] else []
    ensures SumReflected(charge', seen + more)
  {
    assert seen + [] == seen;
    SnocReflects(seen, asks);
  }

  /** In every run, whatever other spaces do, the charge of a steady space is the sum of its granted requests above
      the lowest that sum has been: memory handed back beyond what was charged is not credited. */
  lemma {:induction false} ChargeIsReflectedSum(l: Ledger, ops: seq<Op>, space: int, seen: seq<int>)
    requires Balanced(l) && Runs(l, ops) && space in l.spaces && Steady(l, ops, space)
    requires SumReflected(l.spaces[space].charged, seen)
    ensures space in After(l, ops).spaces
    ensures SumReflected(After(l, ops).spaces[space].charged, seen + Granted(l, ops, space))
    decreases |ops|
  {
    if ops == [] {
      assert seen + [] == seen;
    } else {
      var granted, l' := GrantedBy(l, ops[0], space), Next(l, ops[0]);
      StepBalances(l, ops[0]);
      StepReflectsSum(l, ops[0], space, seen);
      ChargeIsReflectedSum(l', ops[1..], space, seen + granted);
      Regroup(seen, granted, Granted(l', ops[1..], space));
    }
  }

  lemma StepBalances(l: Ledger, op: Op)
    requires Balanced(l) && Enabled(l, op)
    ensures Balanced(Next(l, op))
  {
    NextKeeps(l, op);
  }

  lemma Regroup(a: seq<int>, b: seq<int>, c: seq<int>)
    ensures a + b + c == a + (b + c)
  {
  }

  // ---- Exit as the two steps it is ----

  /**
   The books while exits are under way. A notification handler that looked an entry up may
   book against it after its task has departed, and even after it has left the index: `ledger`
   has every entry there ever was, `index` those the supervisor still lists.
   */
  datatype Office = Office(ledger: Ledger, index: set<int>, departed: set<int>)

  /** `Depart` credits the charge back and `Drop` takes the entry out of the index. */
  datatype Step = Plain(op: Op) | Depart(space: int) | Drop(space: int)

  predicate Allowed(o: Office, s: Step) {
    match s
    case Plain(op) => !op.Exit? && Enabled(o.ledger, op)
    case Depart(space) => space in o.index && space in o.ledger.spaces
    case Drop(space) => space in o.index && space in o.departed
  }

  function Taken(o: Office, s: Step): Office
    requires Allowed(o, s)
  {
    match s
    case Plain(op) => o.(ledger := Next(o.ledger, op), index := if op.Register? then o.index + {op.space} else o.index)
    case Depart(space) => o.(ledger := Release(o.ledger, space), departed := o.departed + {space})
    case Drop(space) => o.(index := o.index - {space})
  }

  predicate Goes(o: Office, steps: seq<Step>)
    decreases |steps|
  {
    steps == [] || (Allowed(o, steps[0]) && Goes(Taken(o, steps[0]), steps[1..]))
  }

  function Later(o: Office, steps: seq<Step>): Office
    requires Goes(o, steps)
    decreases |steps|
  {
    if steps == [] then o else Later(Taken(o, steps[0]), steps[1..])
  }

  const OPENED: Office := Office(Ledger(0, 0, map[]), {}, {})

  function Only(m: map<int, Space>, keys: set<int>): map<int, Space> {
    map k | k in m && k in keys :: m[k]
  }

  /** The books as the supervisor sees them. */
  function Listed(o: Office): Ledger {
    o.ledger.(spaces := Only(o.ledger.spaces, o.index))
  }

  /** What is booked against entries no longer listed. */
  ghost function Lost(o: Office): nat {
    Sum(o.ledger.spaces - o.index)
  }

  /** Every entry is listed or has departed, and the total is the sum over all of them. */
  ghost predicate Kept(o: Office) {
    Balanced(o.ledger) && o.index <= o.ledger.spaces.Keys && o.ledger.spaces.Keys <= o.index + o.departed
  }

  lemma {:induction false} SumSplit(m: map<int, Space>, keys: set<int>)
    ensures Sum(m) == Sum(Only(m, keys)) + Sum(m - keys)
    decreases |m|
  {
    if k :| k in m {
      SumSplit(m - {k}, keys);
      SumRemove(m, k);
      if k in keys {
        SumRemove(Only(m, keys), k);
        assert Only(m, keys) - {k} == Only(m - {k}, keys) && m - {k} - keys == m - keys;
      } else {
        SumRemove(m - keys, k);
        assert m - keys - {k} == m - {k} - keys && Only(m, keys) == Only(m - {k}, keys);
      }
    }
  }

  lemma {:induction false} SumZeroIff(m: map<int, Space>)
    ensures Sum(m) == 0 <==> forall k :: k in m ==> m[k].charged == 0
    decreases |m|
  {
    if k :| k in m {
      SumRemove(m, k);
      SumZeroIff(m - {k});
      assert forall j :: j in m && j != k ==> j in m - {k} && (m - {k})[j] == m[j];
    }
  }

  lemma TakenKeeps(o: Office, s: Step)
    requires Kept(o) && Allowed(o, s)
    ensures Kept(Taken(o, s))
  {
    match s
    case Plain(op) => NextKeeps(o.ledger, op);
    case Depart(space) => SumUpdate(o.ledger.spaces, space, o.ledger.spaces[space].(charged := 0));
    case Drop(_) =>
  }

  /** In every run the total is what is booked against listed entries plus what is lost. */
  lemma {:induction false} ExitsConserve(o: Office, steps: seq<Step>)
    requires Kept(o) && Goes(o, steps)
    ensures var p := Later(o, steps);
            Kept(p) && p.ledger.used == Sum(Listed(p).spaces) + Lost(p)
    decreases |steps|
  {
    if steps == [] {
      SumSplit(o.ledger.spaces, o.index);
    } else {
      TakenKeeps(o, steps[0]);
      ExitsConserve(Taken(o, steps[0]), steps[1..]);
    }
  }

  /** So the listed books balance exactly when no entry that was dropped holds a charge. */
  lemma ListedBalancedIff(o: Office)
    requires Kept(o)
    ensures Balanced(Listed(o)) <==>
            forall k :: k in o.ledger.spaces && k !in o.index ==> o.ledger.spaces[k].charged == 0
  {
    var m := o.ledger.spaces;
    SumSplit(m, o.index);
    SumZeroIff(m - o.index);
    assert forall k :: k in m && k !in o.index ==> k in m - o.index && (m - o.index)[k] == m[k];
  }

  /** No task is booked against after it departed. */
  predicate Punctual(o: Office, steps: seq<Step>)
    requires Goes(o, steps)
    decreases |steps|
  {
    steps == [] ||
    (&& (steps[0].Plain? && steps[0].op.Memory? ==> steps[0].op.space !in o.departed)
     && Punctual(Taken(o, steps[0]), steps[1..]))
  }

  predicate Settled(o: Office) {
    forall k :: k in o.departed && k in o.ledger.spaces ==> o.ledger.spaces[k].charged == 0
  }

  lemma PunctualStep(o: Office, s: Step)
    requires Kept(o) && Settled(o) && Allowed(o, s)
    requires s.Plain? && s.op.Memory? ==> s.op.space !in o.departed
    ensures Settled(Taken(o, s))
  {
    if s.Plain? {
      NextKeeps(o.ledger, s.op);
    }
  }

  /** The listed books balance after every run in which no notification of a task is handled after its departure. */
  lemma {:induction false} PunctualExitsBalance(o: Office, steps: seq<Step>)
    requires Kept(o) && Settled(o) && Goes(o, steps) && Punctual(o, steps)
    ensures Balanced(Listed(Later(o, steps)))
    decreases |steps|
  {
    if steps == [] {
      ListedBalancedIff(o);
    } else {
      TakenKeeps(o, steps[0]);
      PunctualStep(o, steps[0]);
      PunctualExitsBalance(Taken(o, steps[0]), steps[1..]);
    }
  }

  /** With nothing in between the two steps are the one `HandleExit`. */
  lemma ExitAtOnce(o: Office, space: int)
    requires Kept(o) && space in o.index
    ensures Listed(Taken(Taken(o, Depart(space)), Drop(space))) == HandleExit(Listed(o), space)
  {
    var p := Taken(Taken(o, Depart(space)), Drop(space));
    assert Listed(p).spaces == HandleExit(Listed(o), space).spaces;
  }

  /** A notification handled between them. */
  function LateExit(o: Office, space: int, ev: Event, limit: u64, measured: Option<u64>): Office
    requires Kept(o) && space in o.index && limit < U64_MAX && FloorFits(Release(o.ledger, space), space, measured)
  {
    var p := Taken(o, Depart(space));
    var q := Taken(p, Plain(Memory(space, ev, limit, measured)));
    Taken(q, Drop(space))
  }

  /** The footprint the event finds: nothing is charged any more. */
  function Floor(measured: Option<u64>): u64 {
    if measured.None? then 0 else measured.value
  }

  /** The event leaves a departed task without a charge; `l` is the ledger after the departure. */
  predicate Uncharged(l: Ledger, space: int, ev: Event, limit: u64, measured: Option<u64>)
    requires space in l.spaces
  {
    var m := Floor(measured);
    match ev
    case Mmap(len, flags) => m == 0 && (!Anonymous(flags) || len == 0 || WouldExceed(l, len, limit))
    case Munmap(_) => true
    case Brk(newBrk) =>
      var base := if l.spaces[space].brkBase.None? then newBrk else l.spaces[space].brkBase.value;
      newBrk == 0 || (if newBrk > base then m == 0 && WouldExceed(l, newBrk - base, limit) else m <= base - newBrk)
    case Mremap(oldLen, newLen) =>
      if newLen > oldLen then m == 0 && WouldExceed(l, newLen - oldLen, limit) else m <= oldLen - newLen
    case Shmget(size) => m == 0 && (size == 0 || WouldExceed(l, size, limit))
  }

  lemma UnchargedIff(l: Ledger, space: int, ev: Event, limit: u64, measured: Option<u64>)
    requires space in l.spaces && l.spaces[space].charged == 0
    requires limit < U64_MAX && FloorFits(l, space, measured)
    ensures HandleMemory(l, Some(space), ev, limit, measured).0.spaces[space].charged == 0
            <==> Uncharged(l, space, ev, limit, measured)
  {
  }

  /** A notification handled between release and unregister unbalances the listed books exactly when it books bytes:
      each kind's condition is on the event, the limit and the ledger after the release. */
  lemma LateExitBalancedIff(o: Office, space: int, ev: Event, limit: u64, measured: Option<u64>)
    requires Kept(o) && Settled(o) && space in o.index
    requires limit < U64_MAX && FloorFits(Release(o.ledger, space), space, measured)
    ensures Balanced(Listed(LateExit(o, space, ev, limit, measured)))
            <==> Uncharged(Release(o.ledger, space), space, ev, limit, measured)
  {
    var p := Taken(o, Depart(space));
    var late := Plain(Memory(space, ev, limit, measured));
    var q := Taken(p, late);
    TakenKeeps(o, Depart(space));
    TakenKeeps(p, late);
    TakenKeeps(q, Drop(space));
    NextKeeps(p.ledger, late.op);
    UnchargedIff(p.ledger, space, ev, limit, measured);
    ListedBalancedIff(Taken(q, Drop(space)));
  }

  /** What a dropped entry holds stays in the total for as long as no handler touches the entry. */
  lemma {:induction false} LossStays(o: Office, steps: seq<Step>, space: int)
    requires Kept(o) && space in o.ledger.spaces && space !in o.index && Goes(o, steps)
    requires forall s :: s in steps && s.Plain? ==> s.op.space != space
    ensures var p := Later(o, steps);
            p.ledger.used >= Sum(Listed(p).spaces) + o.ledger.spaces[space].charged
    decreases |steps|
  {
    if steps == [] {
      SumSplit(o.ledger.spaces, o.index);
      SumRemove(o.ledger.spaces - o.index, space);
    } else {
      var s := steps[0];
      assert s in steps;
      TakenKeeps(o, s);
      if s.Plain? {
        NextKeeps(o.ledger, s.op);
      }
      LossStays(Taken(o, s), steps[1..], space);
    }
  }

  /** A run that loses a page: its task is killed while an mmap of one page is being handled. */
  function LateMmap(): seq<Step> {
    [Plain(Op.Register(7)), Depart(7), Plain(Memory(7, Mmap(4096, 0x20), 0x10_0000, None)), Drop(7)]
  }

  lemma LateMmapLoses()
    ensures Goes(OPENED, LateMmap())
    ensures var p := Later(OPENED, LateMmap()); p.index == {} && p.ledger.used == 4096
  {
    var s := LateMmap();
    var a := Taken(OPENED, s[0]);
    var b := Taken(a, s[1]);
    var c := Taken(b, s[2]);
    var d := Taken(c, s[3]);
    assert c.ledger.used == 4096;
    assert s[1..] == [s[1], s[2], s[3]] && s[1..][1..] == [s[2], s[3]] && s[1..][1..][1..] == [s[3]];
    assert s[1..][1..][1..][1..] == [];
    assert Goes(d, []) && Goes(c, [s[3]]) && Goes(b, [s[2], s[3]]);
    assert Goes(a, s[1..]);
  }

  // ---- The heap of a process that only moves its break ----

  /** A step that, if it is `space`'s, is a brk whose measurement is within the ledger. */
  predicate BrkOnlyStep(l: Ledger, op: Op, space: int)
    requires space in l.spaces
  {
    op.space == space ==>
      && op.Memory? && op.ev.Brk?
      && (op.measured.Some? ==> op.measured.value <= l.spaces[space].charged)
  }

  /** Since its last exec `space` has issued only brk calls, and no measurement of it
      exceeded its ledger. Every other space may do anything. */
  predicate BrkOnly(l: Ledger, ops: seq<Op>, space: int)
    requires Runs(l, ops)
    decreases |ops|
  {
    ops == [] ||
    (&& space in l.spaces && BrkOnlyStep(l, ops[0], space)
     && BrkOnly(Next(l, ops[0]), ops[1..], space))
  }

  /** Is this a break of `space` that took effect (a move, not a query, not killed)? */
  predicate MovesBreak(l: Ledger, op: Op, space: int)
    requires Enabled(l, op)
  {
    && op.space == space && op.Memory? && op.ev.Brk? && op.ev.newBrk != 0
    && HandleMemory(l, Some(space), op.ev, op.limit, op.measured).1.Continue?
  }

  function Moved(l: Ledger, op: Op, space: int): seq<u64>
    requires Enabled(l, op)
  {
    if MovesBreak(l, op, space) then [op.ev.newBrk] else []
  }

  /** The breaks of `space` that took effect, in order. */
  function Breaks(l: Ledger, ops: seq<Op>, space: int): seq<u64>
    requires Runs(l, ops)
    decreases |ops|
  {
    if ops == [] then []
    else Moved(l, ops[0], space) + Breaks(Next(l, ops[0]), ops[1..], space)
  }

  function Lowest(s: seq<u64>): (r: u64)
    requires s != []
    ensures r in s && forall i :: 0 <= i < |s| ==> r <= s[i]
  {
    if |s| == 1 then s[0] else Min(s[0], Lowest(s[1..]))
  }

  /** The accounting of a heap whose breaks so far are `seen`. */
  predicate Reflected(per: Space, seen: seq<u64>) {
    if seen == [] then per == Space(0, None)
    else per == Space(seen[|seen| - 1] - Lowest(seen), Some(seen[|seen| - 1]))
  }

  lemma {:induction false} LowestSnoc(s: seq<u64>, x: u64)
    requires s != []
    ensures Lowest(s + [x]) == Min(Lowest(s), x)
  {
    if |s| > 1 {
      assert (s + [x])[1..] == s[1..] + [x];
      LowestSnoc(s[1..], x);
    }
  }

  /** What a brk does to its own space. */
  lemma BrkOnSpace(l: Ledger, space: int, newBrk: u64, limit: u64)
    requires space in l.spaces
    ensures var per := l.spaces[space];
            var base := if per.brkBase.None? then newBrk else per.brkBase.value;
            var (l', act) := HandleBrk(l, space, newBrk, limit);
            l'.spaces[space] ==
            if act.KillTask? then Space(per.charged, Some(base))
            else if newBrk >= base then Space(SatAdd(per.charged, newBrk - base), Some(newBrk))
            else Space(per.charged - Min(base - newBrk, per.charged), Some(newBrk))
    ensures HandleBrk(l, space, newBrk, limit).1.KillTask? ==> l.spaces[space].brkBase.Some?
  {
  }

  /** The walk moves with the break, reflected at its lowest point. */
  lemma WalkStep(per: Space, seen: seq<u64>, newBrk: u64)
    requires Reflected(per, seen)
    ensures var base := if per.brkBase.None? then newBrk else per.brkBase.value;
            Reflected(if newBrk >= base then Space(SatAdd(per.charged, newBrk - base), Some(newBrk))
                      else Space(per.charged - Min(base - newBrk, per.charged), Some(newBrk)), seen + [newBrk])
  {
    if seen != [] {
      LowestSnoc(seen, newBrk);
    } else {
      assert seen + [newBrk] == [newBrk];
    }
  }

  /** One effective break moves the reflected walk one step; a killed one leaves it. */
  lemma BrkReflects(l: Ledger, space: int, newBrk: u64, limit: u64, measured: Option<u64>, seen: seq<u64>)
    requires space in l.spaces && Reflected(l.spaces[space], seen) && newBrk != 0
    requires measured.Some? ==> measured.value <= l.spaces[space].charged
    ensures var (l', act) := HandleMemory(l, Some(space), Brk(newBrk), limit, measured);
            Reflected(l'.spaces[space], if act.Continue? then seen + [newBrk] else seen)
  {
    assert HandleMemory(l, Some(space), Brk(newBrk), limit, measured) == HandleBrk(l, space, newBrk, limit);
    BrkOnSpace(l, space, newBrk, limit);
    WalkStep(l.spaces[space], seen, newBrk);
  }

  lemma StepReflects(l: Ledger, op: Op, space: int, seen: seq<u64>)
    requires Balanced(l) && Enabled(l, op) && space in l.spaces && BrkOnlyStep(l, op, space)
    requires Reflected(l.spaces[space], seen)
    ensures space in Next(l, op).spaces && Reflected(Next(l, op).spaces[space], seen + Moved(l, op, space))
  {
    assert seen + [] == seen;
    if op.space == space {
      if op.ev.newBrk != 0 {
        BrkReflects(l, space, op.ev.newBrk, op.limit, op.measured, seen);
      }
    } else {
      NextKeeps(l, op);
    }
  }

  /** For every run in which `space` only moves its break after an exec, whatever the rest
      of the sandbox does: its charge is the current break minus the lowest break seen. */
  lemma {:induction false} BrkChargeIsReflectedWalk(l: Ledger, ops: seq<Op>, space: int, seen: seq<u64>)
    requires Balanced(l) && Runs(l, ops) && space in l.spaces && BrkOnly(l, ops, space)
    requires Reflected(l.spaces[space], seen)
    ensures space in After(l, ops).spaces
    ensures Reflected(After(l, ops).spaces[space], seen + Breaks(l, ops, space))
    decreases |ops|
  {
    if ops == [] {
      assert seen + Breaks(l, ops, space) == seen;
    } else {
      NextKeeps(l, ops[0]);
      StepReflects(l, ops[0], space, seen);
      var moved, l' := Moved(l, ops[0], space), Next(l, ops[0]);
      BrkChargeIsReflectedWalk(l', ops[1..], space, seen + moved);
      assert seen + moved + Breaks(l', ops[1..], space) == seen + (moved + Breaks(l', ops[1..], space));
    }
  }
}
