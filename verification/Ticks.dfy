/** Arithmetic of the 32-bit tick counter that the scheduler reads through its callback.

    Real time is an unbounded number of ticks; the firmware only ever sees its low 32 bits
    and subtracts in unsigned 32-bit arithmetic.
 */
module Ticks {

  const WRAP := 0x1_0000_0000

  /** What the tick callback returns at real time `t`. */
  function Counter(t: nat): (c: nat)
    ensures c < WRAP
  {
    t % WRAP
  }

  /** Unsigned 32-bit subtraction. */
  function Minus(a: nat, b: nat): (d: nat)
    ensures d < WRAP
  {
    (a - b) % WRAP
  }

  /** The test that decides whether a task should run: `counter - n_ticks >= s_ticks`. */
  predicate Due(nTicks: nat, sTicks: nat, now: nat) {
    Minus(Counter(now), nTicks) >= sTicks
  }

  /** A difference of two counter readings is the real gap, up to whole turns of the counter. */
  lemma MinusIsGap(earlier: nat, later: nat)
    requires earlier <= later
    ensures Minus(Counter(later), Counter(earlier)) == (later - earlier) % WRAP
    ensures Minus(Counter(later), Counter(earlier)) <= later - earlier
  {
    var q, q' := later / WRAP, earlier / WRAP;
    assert later == q * WRAP + Counter(later) && earlier == q' * WRAP + Counter(earlier);
    ModShift(later - earlier, Counter(later) - Counter(earlier), q - q');
  }

  lemma ModShift(a: int, b: int, k: int)
    requires a == b + k * WRAP
    ensures a % WRAP == b % WRAP
  {
  }

  /** A task that was dispatched at `last` and is found due again at `now` has waited at least
      its period in real ticks, however often the counter wrapped in between. */
  lemma DueMeansElapsed(last: nat, sTicks: nat, now: nat)
    requires last <= now
    requires Due(Counter(last), sTicks, now)
    ensures now - last >= sTicks
  {
    MinusIsGap(last, now);
  }

  /** The elapsed count seen at `later`, from the one seen at `now`. */
  lemma ElapsedLater(nTicks: nat, now: nat, later: nat)
    requires now <= later
    ensures Minus(Counter(later), nTicks) == (Minus(Counter(now), nTicks) + (later - now)) % WRAP
  {
    var e, e' := Minus(Counter(now), nTicks), Minus(Counter(later), nTicks);
    var k, k' := (Counter(now) - nTicks) / WRAP, (Counter(later) - nTicks) / WRAP;
    var q, q' := now / WRAP, later / WRAP;
    assert Counter(now) == now - q * WRAP && Counter(later) == later - q' * WRAP;
    assert e == Counter(now) - nTicks - k * WRAP && e' == Counter(later) - nTicks - k' * WRAP;
    ModShift(e + (later - now), e', q' - q - k + k');
  }

  /** A task that is due stays due through a window exactly when the counter does not run past
      its reload value inside the window. */
  lemma DueThroughout(nTicks: nat, sTicks: nat, now: nat, end: nat)
    requires Due(nTicks, sTicks, now) && now <= end
    ensures (forall t :: now <= t <= end ==> Due(nTicks, sTicks, t))
        <==> (sTicks == 0 || Minus(Counter(now), nTicks) + (end - now) < WRAP)
  {
    var e := Minus(Counter(now), nTicks);
    if e + (end - now) < WRAP {
      forall t | now <= t <= end
        ensures Due(nTicks, sTicks, t)
      {
        ElapsedLater(nTicks, now, t);
      }
    } else if sTicks > 0 {
      var t := now + (WRAP - e);
      ElapsedLater(nTicks, now, t);
      assert !Due(nTicks, sTicks, t);
    }
  }

  /** The reload value a resume (or a period reload with `run`) stores makes the task due at a
      later check exactly when the gap to that check, taken modulo the counter, and the period
      together do not pass the end of the counter. */
  lemma ReloadIsDue(sTicks: nat, at: nat, check: nat)
    requires sTicks < WRAP && at <= check
    ensures Due(Minus(Counter(at), sTicks), sTicks, check) <==> (check - at) % WRAP + sTicks < WRAP
  {
    var n := Minus(Counter(at), sTicks);
    assert Minus(Counter(at), n) == sTicks by {
      var k := (Counter(at) - sTicks) / WRAP;
      assert n == Counter(at) - sTicks - k * WRAP;
      ModShift(Counter(at) - n, sTicks, k);
    }
    ElapsedLater(n, at, check);
    var g := (check - at) % WRAP;
    ModShift(sTicks + (check - at), sTicks + g, (check - at) / WRAP);
    if g + sTicks >= WRAP {
      ModShift(sTicks + g, sTicks + g - WRAP, 1);
    }
  }
}
