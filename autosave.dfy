/** The two-cadence autosave counter of the main window (`trigger_autosave_event`). */
module Autosave {

  /** `np.mod` on integers: the remainder takes the divisor's sign, and a zero
      divisor yields 0 (numpy warns instead of raising). */
  function NpMod(a: int, b: int): (r: int)
    ensures b > 0 ==> 0 <= r < b
    ensures b < 0 ==> b < r <= 0
    ensures b == 0 ==> r == 0
    ensures b != 0 ==> (a - r) % b == 0
  {
    if b == 0 then 0
    else if b > 0 then
      var q := a / b;
      assert a - a % b == q * b;
      MultipleModZero(q, b);
      a % b
    else
      var q := (-a) / (-b);
      assert -a - (-a) % (-b) == q * (-b);
      assert a + (-a) % (-b) == q * b;
      MultipleModZero(q, b);
      -((-a) % (-b))
  }

  /** One call: the new counter and which of the two saves it triggers. */
  datatype Tick = Tick(counter: int, primary: bool, secondary: bool)

  /** `trigger_autosave_event` with `auto_save` = `enabled`, `auto_save_N0` = `n0`
      and `auto_save_N1` = `n1`. */
  function Step(enabled: bool, counter: int, n0: int, n1: int): (t: Tick)
    ensures !enabled ==> t == Tick(counter, false, false)
    ensures enabled ==> t.counter == if t.secondary then 0 else counter + 1
  {
    if !enabled then Tick(counter, false, false)
    else
      var c := counter + 1;
      var primary := NpMod(c, n0) == 0;
      var secondary := NpMod(c, n1) == 0;
      Tick(if secondary then 0 else c, primary, secondary)
  }

  /** The range the counter stays in: below the secondary cadence, and always 0
      when that cadence is 0. */
  predicate CounterInRange(counter: int, n1: int)
  {
    0 <= counter && (if n1 == 0 then counter == 0 else counter < (if n1 < 0 then -n1 else n1))
  }

  lemma StepKeepsRange(enabled: bool, counter: int, n0: int, n1: int)
    requires CounterInRange(counter, n1)
    ensures CounterInRange(Step(enabled, counter, n0, n1).counter, n1)
  {
    if enabled && n1 > 0 {
      ModSucc(counter, n1);
      DivModUnique(counter, n1, 0, counter);
    } else if enabled && n1 < 0 {
      ModSucc(-counter - 1, -n1);
      DivModUnique(-counter - 1, -n1, -1, -n1 - counter - 1);
    }
  }

  lemma MulMonotone(a: int, b: int, c: int)
    requires a <= b && c > 0
    ensures a * c <= b * c
  {
  }

  /** Euclidean division is unique. */
  lemma DivModUnique(x: int, n: int, q: int, r: int)
    requires n > 0 && x == q * n + r && 0 <= r < n
    ensures x % n == r && x / n == q
  {
    var q', r' := x / n, x % n;
    assert x == q' * n + r';
    assert (q - q') * n == r' - r;
    if q > q' {
      MulMonotone(1, q - q', n);
    } else if q < q' {
      MulMonotone(1, q' - q, n);
    }
  }

  /** The remainder does not depend on the divisor's sign. */
  lemma ModNegDivisor(x: int, n: int)
    requires n > 0
    ensures x % (-n) == x % n
  {
    DivModUnique(x, n, -(x / (-n)), x % (-n));
  }

  lemma MultipleModZero(q: int, n: int)
    requires n != 0
    ensures (q * n) % n == 0
  {
    if n > 0 {
      DivModUnique(q * n, n, q, 0);
    } else {
      assert q * n == (-q) * (-n);
      DivModUnique(q * n, -n, -q, 0);
      ModNegDivisor(q * n, -n);
    }
  }

  lemma ModSucc(a: int, n: int)
    requires n > 0
    ensures (a + 1) % n == if a % n + 1 == n then 0 else a % n + 1
  {
    var q, r := a / n, a % n;
    if r + 1 == n {
      DivModUnique(a + 1, n, q + 1, 0);
    } else {
      DivModUnique(a + 1, n, q, r + 1);
    }
  }

  lemma ModShift(m: int, b: int, n: int)
    requires n > 0
    ensures (m * n + b) % n == b % n
  {
    DivModUnique(m * n + b, n, m + b / n, b % n);
  }

  /** The counter after `k` changes with autosave on, starting from 0. */
  function CounterAfter(n0: int, n1: int, k: nat): int
  {
    if k == 0 then 0 else Step(true, CounterAfter(n0, n1, k - 1), n0, n1).counter
  }

  /** What the `t`-th change (counting from 1) does. */
  function TickAt(n0: int, n1: int, t: nat): Tick
    requires t >= 1
  {
    Step(true, CounterAfter(n0, n1, t - 1), n0, n1)
  }

  /** From a counter below a positive N1, the secondary save fires exactly when
      the counter reaches N1. */
  lemma StepBelowCadence(c: int, n0: int, n1: int)
    requires n1 > 0 && 0 <= c < n1
    ensures Step(true, c, n0, n1).secondary <==> c + 1 == n1
    ensures Step(true, c, n0, n1).counter == if c + 1 == n1 then 0 else c + 1
  {
    if c + 1 == n1 {
      DivModUnique(c + 1, n1, 1, 0);
    } else {
      DivModUnique(c + 1, n1, 0, c + 1);
    }
  }

  /** After `k` changes the counter is `k mod N1`. */
  lemma {:induction false} CounterIsRemainder(n0: int, n1: int, k: nat)
    requires n1 > 0
    ensures CounterAfter(n0, n1, k) == k % n1
  {
    if k > 0 {
      CounterIsRemainder(n0, n1, k - 1);
      ModSucc(k - 1, n1);
      StepBelowCadence((k - 1) % n1, n0, n1);
    }
  }

  /** The secondary save happens exactly on the changes numbered by multiples of N1. */
  lemma SecondaryAtMultiples(n0: int, n1: int, t: nat)
    requires n1 > 0 && t >= 1
    ensures TickAt(n0, n1, t).secondary <==> t % n1 == 0
    ensures TickAt(n0, n1, t).counter == t % n1
  {
    CounterIsRemainder(n0, n1, t - 1);
    ModSucc(t - 1, n1);
    StepBelowCadence((t - 1) % n1, n0, n1);
  }

  /** Reducing modulo a multiple of `n0` first does not change the remainder modulo `n0`. */
  lemma ModOfModMultiple(t: int, n0: int, n1: int)
    requires n0 > 0 && n1 > 0 && n1 % n0 == 0
    ensures (t % n1) % n0 == t % n0
  {
    var m, q := n1 / n0, t / n1;
    assert n1 == m * n0;
    assert t == q * n1 + t % n1;
    assert q * n1 == (q * m) * n0;
    ModShift(q * m, t % n1, n0);
  }

  /** When N0 divides N1, the primary save happens exactly on the changes
      numbered by multiples of N0: the reset at N1 does not shift its cadence. */
  lemma PrimaryAtMultiples(n0: int, n1: int, t: nat)
    requires n0 > 0 && n1 > 0 && n1 % n0 == 0 && t >= 1
    ensures TickAt(n0, n1, t).primary <==> t % n0 == 0
  {
    CounterIsRemainder(n0, n1, t - 1);
    ModSucc(t - 1, n1);
    ModOfModMultiple(t, n0, n1);
    var c := (t - 1) % n1;
    assert TickAt(n0, n1, t).primary <==> (c + 1) % n0 == 0;
    if t % n1 == 0 {
      assert c + 1 == n1;
      DivModUnique(0, n0, 0, 0);
      assert t % n0 == 0;
    } else {
      assert c + 1 == t % n1;
      assert (c + 1) % n0 == t % n0;
    }
  }

  /** A multiple of a multiple of `n0` is a multiple of `n0`. */
  lemma MultipleOfMultiple(cycles: int, n0: int, n1: int)
    requires n0 > 0 && n1 % n0 == 0
    ensures (cycles * n1) % n0 == 0
  {
    var m := n1 / n0;
    assert n1 == m * n0;
    assert cycles * n1 == (cycles * m) * n0;
    ModShift(cycles * m, 0, n0);
  }

  /** Both saves happen on the same change at the end of every N1 cycle when N0 divides N1. */
  lemma BothSavesAtCycleEnd(n0: int, n1: int, cycles: nat)
    requires n0 > 0 && n1 > 0 && n1 % n0 == 0 && cycles >= 1
    ensures TickAt(n0, n1, cycles * n1).primary
    ensures TickAt(n0, n1, cycles * n1).secondary
    ensures TickAt(n0, n1, cycles * n1).counter == 0
  {
    var t := cycles * n1;
    MulMonotone(1, cycles, n1);
    ModShift(cycles, 0, n1);
    assert t % n1 == 0;
    MultipleOfMultiple(cycles, n0, n1);
    SecondaryAtMultiples(n0, n1, t);
    PrimaryAtMultiples(n0, n1, t);
  }

  /** A cadence of 0 saves on every change, since `np.mod(x, 0)` is 0; with N1 = 0
      the counter therefore never leaves 0. */
  lemma ZeroCadenceSavesEveryTime(counter: int, n0: int, n1: int)
    ensures n0 == 0 ==> Step(true, counter, n0, n1).primary
    ensures n1 == 0 ==> Step(true, counter, n0, n1).secondary && Step(true, counter, n0, n1).counter == 0
  {
  }
}
