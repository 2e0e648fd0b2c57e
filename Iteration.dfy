/** Applying a step function over and over, and what follows once a state comes back. */
module Iteration {
  import opened Divisibility

  /** `x` after `n` steps. */
  function Iterate<T>(step: T -> T, x: T, n: nat): T
  {
    if n == 0 then x else step(Iterate(step, x, n - 1))
  }

  /** `m + n` steps are `n` steps after `m` steps. */
  lemma {:induction false} IterateAdd<T>(step: T -> T, x: T, m: nat, n: nat)
    ensures Iterate(step, x, m + n) == Iterate(step, Iterate(step, x, m), n)
  {
    if n > 0 {
      IterateAdd(step, x, m, n - 1);
    }
  }

  /** A property that every step keeps holds after any number of steps. */
  lemma {:induction false} IterateKeeps<T>(step: T -> T, x: T, n: nat, keeps: T -> bool)
    requires keeps(x)
    requires forall y :: keeps(y) ==> keeps(step(y))
    ensures keeps(Iterate(step, x, n))
  {
    if n > 0 {
      IterateKeeps(step, x, n - 1, keeps);
    }
  }

  /** Once the state after `first + period` steps is the state after `first` steps, whole
      periods after `first` lead back to the same states. */
  lemma {:induction false} IteratePeriodic<T>(step: T -> T, x: T, first: nat, period: nat, q: nat, r: nat)
    requires Iterate(step, x, first + period) == Iterate(step, x, first)
    ensures Iterate(step, x, first + period * q + r) == Iterate(step, x, first + r)
  {
    if q > 0 {
      var rest := period * (q - 1) + r;
      calc {
        Iterate(step, x, first + period * q + r);
        { MulAdd(period, q - 1, 1); }
        Iterate(step, x, (first + period) + rest);
        { IterateAdd(step, x, first + period, rest); }
        Iterate(step, Iterate(step, x, first + period), rest);
        { IterateAdd(step, x, first, rest); }
        Iterate(step, x, first + rest);
        { IteratePeriodic(step, x, first, period, q - 1, r); }
        Iterate(step, x, first + r);
      }
    }
  }

  /** When the state after `cycle` steps was already seen after `first` steps,
      `(cycles - cycle) % (cycle - first)` more steps reach the state after `cycles` steps. */
  lemma Shortcut<T>(step: T -> T, x: T, first: nat, cycle: nat, cycles: nat)
    requires first < cycle <= cycles && Iterate(step, x, cycle) == Iterate(step, x, first)
    ensures Iterate(step, x, cycle + (cycles - cycle) % (cycle - first)) == Iterate(step, x, cycles)
  {
    var period := cycle - first;
    var k := cycles - cycle;
    DivMod(k, period);
    var q, r := k / period, k % period;
    IteratePeriodic(step, x, first, period, q + 1, r);
    IteratePeriodic(step, x, first, period, 1, r);
    MulAdd(period, q, 1);
  }
}
