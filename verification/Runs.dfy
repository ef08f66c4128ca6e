/** Runs of any number of steps of a machine core, for an arbitrary step function. */
module Runs {
  import opened Avm

  type Stepper = Core -> Outcome

  function Iterate(step: Stepper, c: Core, n: nat): Outcome
    decreases n
  {
    if n == 0 then Next(c)
    else match step(c)
         case Next(d) => Iterate(step, d, n - 1)
         case Halt(e) => Halt(e)
  }

  /** After exactly `n` steps from `c` the machine is in state `d`. */
  ghost predicate Goes(step: Stepper, c: Core, n: nat, d: Core) { Iterate(step, c, n) == Next(d) }

  lemma {:induction false} Compose(step: Stepper, c: Core, m: nat, d: Core, n: nat)
    requires Goes(step, c, m, d)
    ensures Iterate(step, c, m + n) == Iterate(step, d, n)
    decreases m
  {
    if m > 0 {
      Compose(step, step(c).core, m - 1, d, n);
    }
  }

  lemma Join(step: Stepper, c: Core, m: nat, d: Core, n: nat, e: Core)
    requires Goes(step, c, m, d) && Goes(step, d, n, e)
    ensures Goes(step, c, m + n, e)
  {
    Compose(step, c, m, d, n);
  }

  lemma Once(step: Stepper, c: Core, d: Core)
    requires step(c) == Next(d)
    ensures Goes(step, c, 1, d)
  {
    assert Iterate(step, d, 0) == Next(d);
  }
}
