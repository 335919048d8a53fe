/** The gas limit of the next block, and where repeating the rule leads. */
module GasLimits {
  import opened Words

  const MIN_GAS_LIMIT := 5000
  const BOUND_DIVISOR := 1024

  /** 64-bit arithmetic throughout, so the difference and the sum may wrap around. */
  function CalcGasLimit(parent: Word, desired: Word): Word {
    var delta := (parent / BOUND_DIVISOR - 1) % TWO_64;
    var target := Goal(desired);
    if parent < target then
      var limit := (parent + delta) % TWO_64;
      if limit > target then target else limit
    else if parent > target then
      var limit := (parent - delta) % TWO_64;
      if limit < target then target else limit
    else parent
  }

  function Goal(desired: Word): Word {
    if desired < MIN_GAS_LIMIT then MIN_GAS_LIMIT else desired
  }

  function Distance(limit: Word, desired: Word): nat {
    if limit < Goal(desired) then Goal(desired) - limit else limit - Goal(desired)
  }

  /** Raising a limit must not leave 64 bits; lowering one never does. */
  predicate Raisable(parent: Word, desired: Word) {
    parent >= Goal(desired) || parent + parent / BOUND_DIVISOR - 1 < TWO_64
  }

  /** One step exactly: by parent/1024 - 1 towards the goal, or onto it if it is nearer. */
  lemma StepIs(parent: Word, desired: Word)
    requires parent >= BOUND_DIVISOR && Raisable(parent, desired)
    ensures var goal, delta := if desired < 5000 then 5000 else desired, parent / 1024 - 1;
            CalcGasLimit(parent, desired) ==
            if parent + delta < goal then parent + delta
            else if parent - delta > goal then parent - delta
            else goal
  {
  }

  /** One step moves towards the goal by less than the bound and does not pass it. */
  lemma StepApproaches(parent: Word, desired: Word)
    requires parent >= MIN_GAS_LIMIT && Raisable(parent, desired)
    ensures var next := CalcGasLimit(parent, desired);
            && next >= MIN_GAS_LIMIT
            && -(parent / BOUND_DIVISOR) < next - parent < parent / BOUND_DIVISOR
            && (parent <= Goal(desired) ==> parent <= next <= Goal(desired))
            && (parent >= Goal(desired) ==> Goal(desired) <= next <= parent)
            && (parent != Goal(desired) ==> Distance(next, desired) < Distance(parent, desired))
  {
    assert parent / BOUND_DIVISOR >= 4;
  }

  /** A step that is not raisable wraps around and drops the limit instead of raising it. */
  lemma StepWraps(parent: Word, desired: Word)
    requires parent >= MIN_GAS_LIMIT
    ensures !Raisable(parent, desired) <==> parent < Goal(desired) && CalcGasLimit(parent, desired) < parent
  {
    if parent < Goal(desired) && Raisable(parent, desired) {
      StepApproaches(parent, desired);
    }
  }

  function Iterate(parent: Word, desired: Word, steps: nat): Word
    decreases steps
  {
    if steps == 0 then parent else Iterate(CalcGasLimit(parent, desired), desired, steps - 1)
  }

  /** The first limit from which raising wraps. */
  const WRAP_FREE := 0xFFC0_0FFC_00FF_C011

  lemma WrapsFrom(parent: Word, desired: Word)
    requires parent < Goal(desired)
    ensures Raisable(parent, desired) <==> parent < WRAP_FREE
  {
  }

  /** The limit at which a climb that is not stopped by a goal gets to the wrapping range. */
  function Summit(parent: Word): (s: Word)
    requires parent >= MIN_GAS_LIMIT
    ensures s >= parent && s >= WRAP_FREE
    decreases TWO_64 - parent
  {
    if parent >= WRAP_FREE then parent else Summit(parent + parent / BOUND_DIVISOR - 1)
  }

  /** The goal lies below the limit or within reach of a climb that does not wrap. */
  predicate Towards(parent: Word, desired: Word)
    requires parent >= MIN_GAS_LIMIT
  {
    parent >= Goal(desired) || Goal(desired) <= Summit(parent)
  }

  /** A goal within reach is still within reach one step further. */
  lemma StepTowards(parent: Word, desired: Word)
    requires parent >= MIN_GAS_LIMIT && Towards(parent, desired)
    ensures Raisable(parent, desired)
    ensures CalcGasLimit(parent, desired) >= MIN_GAS_LIMIT && Towards(CalcGasLimit(parent, desired), desired)
  {
    if parent < Goal(desired) {
      WrapsFrom(parent, desired);
    }
    StepApproaches(parent, desired);
  }

  /** The goal is reached after at most distance many steps, and kept. */
  lemma {:induction false} Converges(parent: Word, desired: Word) returns (steps: nat)
    requires parent >= MIN_GAS_LIMIT && Towards(parent, desired)
    ensures steps <= Distance(parent, desired)
    ensures forall later: nat | later >= steps :: Iterate(parent, desired, later) == Goal(desired)
    decreases Distance(parent, desired)
  {
    if parent == Goal(desired) {
      steps := 0;
      forall later: nat ensures Iterate(parent, desired, later) == Goal(desired) {
        Stays(parent, desired, later);
      }
    } else {
      StepTowards(parent, desired);
      StepApproaches(parent, desired);
      var rest := Converges(CalcGasLimit(parent, desired), desired);
      steps := rest + 1;
    }
  }

  lemma {:induction false} Stays(parent: Word, desired: Word, steps: nat)
    requires parent == Goal(desired)
    ensures Iterate(parent, desired, steps) == parent
  {
    if steps > 0 {
      Stays(parent, desired, steps - 1);
    }
  }

  /** The limit lies between where it started and the goal. */
  predicate Between(parent: Word, limit: Word, desired: Word) {
    && limit >= MIN_GAS_LIMIT
    && (parent <= Goal(desired) ==> parent <= limit <= Goal(desired))
    && (parent >= Goal(desired) ==> Goal(desired) <= limit <= parent)
  }

  lemma {:induction false} NoOvershoot(parent: Word, desired: Word, steps: nat)
    requires parent >= MIN_GAS_LIMIT && Towards(parent, desired)
    ensures Between(parent, Iterate(parent, desired, steps), desired)
    decreases steps
  {
    if steps > 0 {
      StepTowards(parent, desired);
      StepApproaches(parent, desired);
      NoOvershoot(CalcGasLimit(parent, desired), desired, steps - 1);
    }
  }

  /** A goal out of reach: the climb gets to its summit below the goal, and the next step falls. */
  lemma {:induction false} Falls(parent: Word, desired: Word) returns (steps: nat)
    requires parent >= MIN_GAS_LIMIT && !Towards(parent, desired)
    ensures Iterate(parent, desired, steps) == Summit(parent) < Goal(desired)
    ensures Iterate(parent, desired, steps + 1) < Summit(parent)
    decreases TWO_64 - parent
  {
    WrapsFrom(parent, desired);
    if parent >= WRAP_FREE {
      steps := 0;
      StepWraps(parent, desired);
      assert Iterate(parent, desired, 1) == CalcGasLimit(parent, desired);
    } else {
      var next := parent + parent / BOUND_DIVISOR - 1;
      assert Summit(next) == Summit(parent) && CalcGasLimit(parent, desired) == next;
      var rest := Falls(next, desired);
      steps := rest + 1;
    }
  }

  /** The limits move steadily towards the goal, without overshoot or setback, exactly if the goal is within reach. */
  lemma SteadyIff(parent: Word, desired: Word)
    requires parent >= MIN_GAS_LIMIT
    ensures Towards(parent, desired) <==>
            forall n: nat :: Between(Iterate(parent, desired, n), Iterate(parent, desired, n + 1), desired)
  {
    if Towards(parent, desired) {
      forall n: nat ensures Between(Iterate(parent, desired, n), Iterate(parent, desired, n + 1), desired) {
        SteadyAt(parent, desired, n);
      }
    } else {
      var n := Falls(parent, desired);
      assert !Between(Iterate(parent, desired, n), Iterate(parent, desired, n + 1), desired);
    }
  }

  lemma {:induction false} SteadyAt(parent: Word, desired: Word, n: nat)
    requires parent >= MIN_GAS_LIMIT && Towards(parent, desired)
    ensures Between(Iterate(parent, desired, n), Iterate(parent, desired, n + 1), desired)
    decreases n
  {
    StepTowards(parent, desired);
    StepApproaches(parent, desired);
    if n == 0 {
      assert Iterate(parent, desired, 1) == CalcGasLimit(parent, desired);
    } else {
      SteadyAt(CalcGasLimit(parent, desired), desired, n - 1);
    }
  }
}
