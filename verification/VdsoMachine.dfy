/**
 Runs of a deterministic machine given by its step function. The three instruction sets
 below share these notions: reaching a state in so many instructions, and returning to the
 caller within so many.
 */
module VdsoMachine {

  datatype Effect<S> = Next(s: S) | Returned(s: S) | Fault

  /** At most `fuel` instructions from `s`. */
  ghost function Exec<S(!new)>(step: S -> Effect<S>, s: S, fuel: nat): Effect<S>
    decreases fuel
  {
    if fuel == 0 then Next(s)
    else match step(s)
      case Next(t) => Exec(step, t, fuel - 1)
      case Returned(t) => Returned(t)
      case Fault => Fault
  }

  /** `n` instructions lead from `s` to `t`. */
  ghost predicate Reaches<S(!new)>(step: S -> Effect<S>, s: S, n: nat, t: S) {
    forall fuel: nat {:trigger Exec(step, s, fuel)} :: fuel >= n ==> Exec(step, s, fuel) == Exec(step, t, fuel - n)
  }

  /** Within `n` instructions the run returns to its caller in state `t`. */
  ghost predicate Ends<S(!new)>(step: S -> Effect<S>, s: S, n: nat, t: S) {
    forall fuel: nat {:trigger Exec(step, s, fuel)} :: fuel >= n ==> Exec(step, s, fuel) == Returned(t)
  }

  lemma Does<S(!new)>(step: S -> Effect<S>, s: S, t: S)
    requires step(s) == Next(t)
    ensures Reaches(step, s, 1, t)
  {
  }

  lemma Then<S(!new)>(step: S -> Effect<S>, s: S, n: nat, t: S, m: nat, u: S)
    requires Reaches(step, s, n, t) && Reaches(step, t, m, u)
    ensures Reaches(step, s, n + m, u)
  {
  }

  lemma EndsHere<S(!new)>(step: S -> Effect<S>, s: S)
    requires step(s) == Returned(s)
    ensures Ends(step, s, 1, s)
  {
  }

  lemma EndsAfter<S(!new)>(step: S -> Effect<S>, s: S, n: nat, t: S, m: nat, u: S)
    requires Reaches(step, s, n, t) && Ends(step, t, m, u)
    ensures Ends(step, s, n + m, u)
  {
  }
}
