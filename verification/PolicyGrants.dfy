/**
 The dynamic policy context: grants expand within a ceiling, restricts are permanent. The
 class updates in place; `Apply` is its effect on values, and the results about whole runs
 compare the final policy with a reading of the run alone.
 */
module PolicyGrants {
  import opened Prelude

  type Ip = int

  datatype Field = AllowedIps | MaxMemory | MaxProcesses

  datatype Policy = Policy(ips: set<Ip>, memory: u64, processes: u32)

  datatype Context = Context(live: Policy, ceiling: Policy, restricted: set<Field>)

  datatype Op =
    | GrantNetwork(ips: seq<Ip>)
    | GrantMemory(bytes: u64)
    | GrantProcesses(n: u32)
    | RestrictNetwork(ips: seq<Ip>)
    | RestrictMemory(bytes: u64)
    | RestrictProcesses(n: u32)

  function Min(a: int, b: int): int { if a <= b then a else b }

  function Elements(s: seq<Ip>): set<Ip> { set x | x in s }

  /** The context after an operation, and whether it was accepted. */
  function Apply(c: Context, op: Op): (Context, bool) {
    match op
    case GrantNetwork(ips) =>
      if AllowedIps in c.restricted then (c, false)
      else (c.(live := c.live.(ips := c.live.ips + Elements(ips) * c.ceiling.ips)), true)
    case GrantMemory(bytes) =>
      if MaxMemory in c.restricted then (c, false)
      else (c.(live := c.live.(memory := Min(bytes, c.ceiling.memory))), true)
    case GrantProcesses(n) =>
      if MaxProcesses in c.restricted then (c, false)
      else (c.(live := c.live.(processes := Min(n, c.ceiling.processes))), true)
    case RestrictNetwork(ips) =>
      (c.(live := c.live.(ips := Elements(ips)), restricted := c.restricted + {AllowedIps}), true)
    case RestrictMemory(bytes) =>
      (c.(live := c.live.(memory := bytes), restricted := c.restricted + {MaxMemory}), true)
    case RestrictProcesses(n) =>
      (c.(live := c.live.(processes := n), restricted := c.restricted + {MaxProcesses}), true)
  }

  class PolicyContext {
    var live: Policy
    const ceiling: Policy
    var restricted: set<Field>

    ghost function Value(): Context
      reads this
    {
      Context(live, ceiling, restricted)
    }

    constructor (live: Policy, ceiling: Policy)
      ensures Value() == Context(live, ceiling, {})
    {
      this.live := live;
      this.ceiling := ceiling;
      restricted := {};
    }

    method CheckNotRestricted(field: Field) returns (ok: bool)
      ensures ok <==> field !in restricted
    {
      ok := field !in restricted;
    }

    method DoGrantNetwork(ips: seq<Ip>) returns (ok: bool)
      modifies this
      ensures (Value(), ok) == Apply(old(Value()), GrantNetwork(ips))
    {
      ok := CheckNotRestricted(AllowedIps);
      if !ok {
        return;
      }
      for i := 0 to |ips|
        invariant live == old(live).(ips := old(live).ips + Elements(ips[..i]) * ceiling.ips)
                  && restricted == old(restricted)
      {
        assert ips[..i + 1] == ips[..i] + [ips[i]];
        if ips[i] in ceiling.ips {
          live := live.(ips := live.ips + {ips[i]});
        }
      }
      assert ips[..|ips|] == ips;
    }

    method DoGrantMaxMemory(bytes: u64) returns (ok: bool)
      modifies this
      ensures (Value(), ok) == Apply(old(Value()), GrantMemory(bytes))
    {
      ok := CheckNotRestricted(MaxMemory);
      if ok {
        live := live.(memory := Min(bytes, ceiling.memory));
      }
    }

    method DoGrantMaxProcesses(n: u32) returns (ok: bool)
      modifies this
      ensures (Value(), ok) == Apply(old(Value()), GrantProcesses(n))
    {
      ok := CheckNotRestricted(MaxProcesses);
      if ok {
        live := live.(processes := Min(n, ceiling.processes));
      }
    }

    method DoRestrictNetwork(ips: seq<Ip>)
      modifies this
      ensures Value() == Apply(old(Value()), RestrictNetwork(ips)).0
    {
      restricted := restricted + {AllowedIps};
      live := live.(ips := Elements(ips));
    }

    method DoRestrictMaxMemory(bytes: u64)
      modifies this
      ensures Value() == Apply(old(Value()), RestrictMemory(bytes)).0
    {
      restricted := restricted + {MaxMemory};
      live := live.(memory := bytes);
    }

    method DoRestrictMaxProcesses(n: u32)
      modifies this
      ensures Value() == Apply(old(Value()), RestrictProcesses(n)).0
    {
      restricted := restricted + {MaxProcesses};
      live := live.(processes := n);
    }
  }

  // ---- Whole runs ----

  /** The context after a run. */
  function Run(c: Context, ops: seq<Op>): Context {
    if ops == [] then c else Apply(Run(c, ops[..|ops| - 1]), ops[|ops| - 1]).0
  }

  predicate Restricts(op: Op, f: Field) {
    match f
    case AllowedIps => op.RestrictNetwork?
    case MaxMemory => op.RestrictMemory?
    case MaxProcesses => op.RestrictProcesses?
  }

  predicate Grants(op: Op, f: Field) {
    match f
    case AllowedIps => op.GrantNetwork?
    case MaxMemory => op.GrantMemory?
    case MaxProcesses => op.GrantProcesses?
  }

  /** The last operation of a run that restricts `f`. */
  function LastRestrict(ops: seq<Op>, f: Field): (r: Option<Op>)
    ensures r.Some? ==> Restricts(r.value, f) && r.value in ops
    ensures r.None? <==> forall op :: op in ops ==> !Restricts(op, f)
  {
    if ops == [] then None
    else if Restricts(ops[|ops| - 1], f) then Some(ops[|ops| - 1])
    else LastRestrict(ops[..|ops| - 1], f)
  }

  /** The last operation of a run that grants `f`. */
  function LastGrant(ops: seq<Op>, f: Field): (r: Option<Op>)
    ensures r.Some? ==> Grants(r.value, f) && r.value in ops
    ensures r.None? <==> forall op :: op in ops ==> !Grants(op, f)
  {
    if ops == [] then None
    else if Grants(ops[|ops| - 1], f) then Some(ops[|ops| - 1])
    else LastGrant(ops[..|ops| - 1], f)
  }

  /** All addresses ever asked for. */
  function Asked(ops: seq<Op>): set<Ip> {
    if ops == [] then {}
    else Asked(ops[..|ops| - 1]) + (var op := ops[|ops| - 1]; if op.GrantNetwork? then Elements(op.ips) else {})
  }

  /** A field is restricted exactly when the run restricted it, and the ceiling never moves. */
  lemma {:induction false} RestrictedIff(c: Context, ops: seq<Op>, f: Field)
    requires c.restricted == {}
    ensures f in Run(c, ops).restricted <==> LastRestrict(ops, f).Some?
    ensures Run(c, ops).ceiling == c.ceiling
  {
    if ops != [] {
      RestrictedIff(c, ops[..|ops| - 1], f);
    }
  }

  /** A restricted address set is the argument of its last restrict; otherwise the initial set plus what was asked
      for within the ceiling. */
  lemma {:induction false} NetworkAfter(c: Context, ops: seq<Op>)
    requires c.restricted == {}
    ensures var last := LastRestrict(ops, AllowedIps);
            Run(c, ops).live.ips == if last.Some? then Elements(last.value.ips)
                                    else c.live.ips + Asked(ops) * c.ceiling.ips
  {
    if ops != [] {
      var init := ops[..|ops| - 1];
      NetworkAfter(c, init);
      RestrictedIff(c, init, AllowedIps);
    }
  }

  /** A restricted memory limit is the argument of its last restrict; otherwise the last grant capped by the ceiling,
      or the initial limit. */
  lemma {:induction false} MemoryAfter(c: Context, ops: seq<Op>)
    requires c.restricted == {}
    ensures var last, grant := LastRestrict(ops, MaxMemory), LastGrant(ops, MaxMemory);
            Run(c, ops).live.memory == if last.Some? then last.value.bytes
                                       else if grant.Some? then Min(grant.value.bytes, c.ceiling.memory)
                                       else c.live.memory
  {
    if ops != [] {
      var init := ops[..|ops| - 1];
      MemoryAfter(c, init);
      RestrictedIff(c, init, MaxMemory);
    }
  }

  lemma {:induction false} ProcessesAfter(c: Context, ops: seq<Op>)
    requires c.restricted == {}
    ensures var last, grant := LastRestrict(ops, MaxProcesses), LastGrant(ops, MaxProcesses);
            Run(c, ops).live.processes == if last.Some? then last.value.n
                                          else if grant.Some? then Min(grant.value.n, c.ceiling.processes)
                                          else c.live.processes
  {
    if ops != [] {
      var init := ops[..|ops| - 1];
      ProcessesAfter(c, init);
      RestrictedIff(c, init, MaxProcesses);
    }
  }

  /** After a restrict every grant on the field is refused without effect, and only then. */
  lemma GrantRefusedIff(c: Context, ops: seq<Op>, grant: Op, f: Field)
    requires c.restricted == {} && Grants(grant, f)
    ensures var r := Apply(Run(c, ops), grant);
            && (!r.1 <==> exists op :: op in ops && Restricts(op, f))
            && (!r.1 ==> r.0 == Run(c, ops))
  {
    RestrictedIff(c, ops, f);
  }

  /** A restrict is not capped: the memory limit stays within the ceiling exactly when the last restrict does. */
  lemma MemoryWithinCeilingIff(c: Context, ops: seq<Op>)
    requires c.restricted == {} && c.live.memory <= c.ceiling.memory
    ensures Run(c, ops).live.memory <= c.ceiling.memory
            <==> LastRestrict(ops, MaxMemory).None? || LastRestrict(ops, MaxMemory).value.bytes <= c.ceiling.memory
  {
    MemoryAfter(c, ops);
  }

  /** The live addresses stay within the ceiling exactly when the last restrict names only addresses of it. */
  lemma NetworkWithinCeilingIff(c: Context, ops: seq<Op>)
    requires c.restricted == {} && c.live.ips <= c.ceiling.ips
    ensures Run(c, ops).live.ips <= c.ceiling.ips
            <==> LastRestrict(ops, AllowedIps).None?
                 || Elements(LastRestrict(ops, AllowedIps).value.ips) <= c.ceiling.ips
  {
    NetworkAfter(c, ops);
  }

  /** The process limit stays within the ceiling exactly when the last restrict does. */
  lemma ProcessesWithinCeilingIff(c: Context, ops: seq<Op>)
    requires c.restricted == {} && c.live.processes <= c.ceiling.processes
    ensures Run(c, ops).live.processes <= c.ceiling.processes
            <==> LastRestrict(ops, MaxProcesses).None? || LastRestrict(ops, MaxProcesses).value.n <= c.ceiling.processes
  {
    ProcessesAfter(c, ops);
  }

  /** A run that does: restricting to more than the ceiling. */
  lemma RestrictAboveCeiling()
    ensures var low := Policy({}, 10, 1);
            Run(Context(low, low, {}), [RestrictMemory(20)]).live.memory == 20
  {
    var low := Policy({}, 10, 1);
    var ops := [RestrictMemory(20)];
    assert ops[..|ops| - 1] == [];
    assert Run(Context(low, low, {}), ops) == Apply(Run(Context(low, low, {}), []), RestrictMemory(20)).0;
  }
}
