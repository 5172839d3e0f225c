/**
 * The charge cycle of one car, as values: what one firing of the cycle's
 * timer task does to the car and to the cycle's counters, and what any number
 * of firings do. The classes in GameObjects are proved against `Step`.
 */
module Charging {

  function Abs(x: int): int { if x < 0 then -x else x }

  function Max0(x: int): nat { if x < 0 then 0 else x }

  /** Java's `/` on `int`: the quotient truncated toward zero. */
  function JavaDiv(a: int, b: int): (q: int)
    requires b != 0
    ensures Abs(a - q * b) < Abs(b)
    ensures 0 <= a ==> 0 <= a - q * b
    ensures a <= 0 ==> a - q * b <= 0
    ensures 0 <= a && 0 < b ==> q == a / b
  {
    if (0 <= a) == (0 < b) then Abs(a) / Abs(b) else -(Abs(a) / Abs(b))
  }

  /** Number of LEDs on a player's charge strip. */
  const LedCount: int := 6

  /** `ceil(a / b)` for a positive divisor. */
  function CeilDiv(a: int, b: int): (q: int)
    requires b > 0
    ensures (q - 1) * b < a <= q * b
  {
    -((-a) / b)
  }

  /**
   * The LEDs lit after a charge: `ceil(charged / capacity * LedCount)`,
   * in exact arithmetic.
   */
  function LedsToLight(charged: int, capacity: int): (n: int)
    requires capacity > 0
    ensures (n - 1) * capacity < charged * LedCount <= n * capacity
  {
    CeilDiv(charged * LedCount, capacity)
  }

  lemma SignOfProduct(x: int, c: int)
    requires c > 0
    ensures x * c < 0 ==> x < 0
    ensures 0 <= x * c ==> 0 <= x
  {
  }

  /** A charge between empty and full lights between none and all of the LEDs. */
  lemma LedsWithinStrip(charged: int, capacity: int)
    requires 0 < capacity && 0 <= charged <= capacity
    ensures 0 <= LedsToLight(charged, capacity) <= LedCount
    ensures charged == 0 ==> LedsToLight(charged, capacity) == 0
    ensures charged == capacity ==> LedsToLight(charged, capacity) == LedCount
  {
    var n := LedsToLight(charged, capacity);
    assert (n - 1 - LedCount) * capacity == (n - 1) * capacity - LedCount * capacity;
    SignOfProduct(n - 1 - LedCount, capacity);
    SignOfProduct(n, capacity);
    SignOfProduct(n - 1, capacity);
    assert (n - LedCount) * capacity == n * capacity - LedCount * capacity;
    SignOfProduct(n - LedCount, capacity);
  }

  /**
   * What a cycle fixes when it is accepted: the car's capacity, the cycle's
   * length in seconds, the package size (the energy to deliver), the
   * increment applied per tick, and whether a progress callback was given.
   */
  datatype Plan = Plan(capacity: int, duration: int, total: int, increment: int, hasCallback: bool)

  /**
   * What a tick changes: the car's charge and blocked flag, the cycle's two
   * counters, the number of increments applied and of callbacks run, and
   * whether the timer task still runs.
   */
  datatype Meter = Meter(charged: int, blocked: bool, seconds: int, delivered: int,
                         applied: nat, callbacks: nat, running: bool)

  /** A plan as an accepted claim computes it; the division by `duration` is Java's. */
  ghost predicate Planned(p: Plan) {
    p.duration != 0 && 0 <= p.total && p.increment == JavaDiv(p.total, p.duration)
  }

  function NewPlan(capacity: int, size: nat, duration: int, hasCallback: bool): (p: Plan)
    requires duration != 0
    ensures p.capacity == capacity && p.duration == duration && p.total == size
    ensures p.hasCallback == hasCallback
    ensures Planned(p)
    ensures 0 < duration ==> 0 <= p.total - duration * p.increment < duration
  {
    Plan(capacity, duration, size, JavaDiv(size, duration), hasCallback)
  }

  /** The state right after an accepted claim: blocked, counters at zero, nothing delivered. */
  function Start(charged: int): Meter {
    Meter(charged, true, 0, 0, 0, 0, true)
  }

  /** The outer test of a tick: time and energy are both left. */
  predicate InBudget(p: Plan, m: Meter) {
    m.delivered < p.total && m.seconds < p.duration
  }

  /** The inner test: one more increment fits the battery and the allotment. */
  predicate Fits(p: Plan, m: Meter) {
    m.charged + p.increment <= p.capacity && m.delivered + p.increment <= p.total
  }

  /** Ending the cycle: the car is unblocked and the timer task cancelled. */
  function Complete(m: Meter): (m': Meter)
    ensures !m'.running && !m'.blocked
    ensures m'.charged == m.charged && m'.delivered == m.delivered && m'.seconds == m.seconds
    ensures m'.applied == m.applied && m'.callbacks == m.callbacks
  {
    m.(blocked := false, running := false)
  }

  /** One firing of the timer task; a cancelled task never fires again. */
  function Step(p: Plan, m: Meter): (m': Meter)
    ensures m'.running <==> m.running && InBudget(p, m) && Fits(p, m)
    ensures m'.running ==> m'.applied == m.applied + 1 && m'.seconds == m.seconds + 1
    ensures !m'.running ==> m'.charged == m.charged && m'.delivered == m.delivered
                            && m'.callbacks == m.callbacks
    ensures m.running && !m'.running ==> !m'.blocked
    ensures m'.charged - m.charged == m'.delivered - m.delivered
  {
    if !m.running then m
    else if InBudget(p, m) then
      if Fits(p, m) then
        m.(charged := m.charged + p.increment,
           delivered := m.delivered + p.increment,
           applied := m.applied + 1,
           callbacks := if p.hasCallback then m.callbacks + 1 else m.callbacks,
           seconds := m.seconds + 1)
      else
        Complete(m).(seconds := m.seconds + 1)
    else
      Complete(m)
  }

  /** `n` firings of the timer task, fewer if it is cancelled before. */
  function Run(p: Plan, m: Meter, n: nat): (m': Meter)
    ensures m'.running ==> m.running && m'.seconds == m.seconds + n
    ensures !m.running ==> m' == m
    decreases n
  {
    if n == 0 || !m.running then m else Run(p, Step(p, m), n - 1)
  }

  /**
   * What holds of a cycle's counters at every tick boundary: energy is
   * delivered only in whole increments, never past the package size; the
   * callback ran once per increment; increments were applied only in the
   * first `duration` seconds; the car is blocked exactly while the task runs.
   */
  ghost predicate Invariant(p: Plan, m: Meter) {
    && Planned(p)
    && 0 <= m.delivered <= p.total
    && m.delivered == p.increment * m.applied
    && m.callbacks == (if p.hasCallback then m.applied else 0)
    && m.applied <= Max0(p.duration)
    && (m.seconds == m.applied || (!m.running && m.seconds == m.applied + 1))
    && m.blocked == m.running
  }

  /** The increment is never negative once a tick can apply it. */
  lemma IncrementNonNegative(p: Plan, m: Meter)
    requires Invariant(p, m) && InBudget(p, m)
    ensures 0 <= p.increment
    ensures p.duration * p.increment <= p.total
  {
  }

  lemma StartInvariant(p: Plan, charged: int)
    requires Planned(p)
    ensures Invariant(p, Start(charged))
  {
  }

  /** One tick keeps the invariant, keeps the charge within the battery, and charges exactly what it delivers. */
  lemma StepKeepsInvariant(p: Plan, m: Meter)
    requires Invariant(p, m)
    ensures Invariant(p, Step(p, m))
    ensures m.charged <= p.capacity ==> Step(p, m).charged <= p.capacity
    ensures 0 <= m.charged ==> 0 <= Step(p, m).charged
    ensures Step(p, m).charged - m.charged == Step(p, m).delivered - m.delivered
    ensures m.delivered <= Step(p, m).delivered
  {
  }

  /** What a whole run keeps: the invariant, the battery bound, and "charged exactly what was delivered". */
  lemma {:induction false} RunKeepsInvariant(p: Plan, m: Meter, n: nat)
    requires Invariant(p, m)
    ensures Invariant(p, Run(p, m, n))
    ensures m.charged <= p.capacity ==> Run(p, m, n).charged <= p.capacity
    ensures 0 <= m.charged ==> 0 <= Run(p, m, n).charged
    ensures Run(p, m, n).charged - m.charged == Run(p, m, n).delivered - m.delivered
    ensures Run(p, m, n).delivered <= p.total
    decreases n
  {
    if n > 0 && m.running {
      StepKeepsInvariant(p, m);
      RunKeepsInvariant(p, Step(p, m), n - 1);
    }
  }

  /** Ticks compose: `a + b` firings are `a` firings followed by `b`. */
  lemma {:induction false} RunSplit(p: Plan, m: Meter, a: nat, b: nat)
    ensures Run(p, m, a + b) == Run(p, Run(p, m, a), b)
    decreases a
  {
    if a > 0 && m.running {
      RunSplit(p, Step(p, m), a - 1, b);
    } else if a > 0 {
      assert Run(p, m, a) == m;
      RunStopped(p, m, a + b);
      RunStopped(p, m, b);
    }
  }

  /** A cancelled task changes nothing any more. */
  lemma RunStopped(p: Plan, m: Meter, n: nat)
    requires !m.running
    ensures Run(p, m, n) == m
  {
  }

  /**
   * Termination: a running task that has used `seconds` of its time is
   * cancelled within `duration - seconds + 1` more firings, whatever the
   * battery does.
   */
  lemma {:induction false} RunTerminates(p: Plan, m: Meter)
    requires Invariant(p, m) && m.running
    ensures !Run(p, m, Max0(p.duration - m.seconds) + 1).running
    ensures !Run(p, m, Max0(p.duration - m.seconds) + 1).blocked
    decreases Max0(p.duration - m.seconds)
  {
    var n := Max0(p.duration - m.seconds) + 1;
    var m' := Step(p, m);
    StepKeepsInvariant(p, m);
    assert Run(p, m, n) == Run(p, m', n - 1);
    if m'.running {
      assert m'.seconds == m.seconds + 1 && m.seconds < p.duration;
      RunTerminates(p, m');
      assert Max0(p.duration - m'.seconds) + 1 == n - 1;
    } else {
      RunStopped(p, m', n - 1);
    }
  }

  /** A whole cycle ends within `duration + 1` ticks of the claim and leaves the car unblocked. */
  lemma CycleEnds(p: Plan, charged: int)
    requires Planned(p)
    ensures !Run(p, Start(charged), Max0(p.duration) + 1).running
    ensures !Run(p, Start(charged), Max0(p.duration) + 1).blocked
    ensures Run(p, Start(charged), Max0(p.duration) + 1).delivered <= p.total
  {
    StartInvariant(p, charged);
    RunTerminates(p, Start(charged));
    RunKeepsInvariant(p, Start(charged), Max0(p.duration) + 1);
  }

  /**
   * While time, energy and battery room last, `k` ticks apply `k` whole
   * increments and run the callback `k` times.
   */
  lemma {:induction false} RunApplies(p: Plan, m: Meter, k: nat)
    requires Invariant(p, m) && m.running
    requires m.seconds + k <= p.duration
    requires m.charged + p.increment * k <= p.capacity
    requires m.delivered + p.increment * k <= p.total
    requires k == 0 || m.delivered + p.increment * (k - 1) < p.total
    ensures Run(p, m, k) == m.(charged := m.charged + p.increment * k,
                               delivered := m.delivered + p.increment * k,
                               seconds := m.seconds + k,
                               applied := m.applied + k,
                               callbacks := m.callbacks + (if p.hasCallback then k else 0))
    decreases k
  {
    if k > 0 {
      IncrementNonNegative(p, m);
      assert p.increment * k == p.increment * (k - 1) + p.increment;
      assert Fits(p, m) by {
        assert p.increment * (k - 1) >= 0;
      }
      var m' := Step(p, m);
      StepKeepsInvariant(p, m);
      if k > 1 {
        assert p.increment * (k - 1) == p.increment * (k - 2) + p.increment;
      }
      RunApplies(p, m', k - 1);
    }
  }

  /**
   * A 50 000 Wh battery, empty, takes a 6 000 Wh package over 60 seconds:
   * 100 Wh per tick for 60 ticks, and the 61st tick ends the cycle.
   */
  lemma ScenarioFullPackage()
    ensures NewPlan(50000, 6000, 60, true).increment == 100
    ensures Run(NewPlan(50000, 6000, 60, true), Start(0), 60)
            == Meter(6000, true, 60, 6000, 60, 60, true)
    ensures Run(NewPlan(50000, 6000, 60, true), Start(0), 61)
            == Meter(6000, false, 60, 6000, 60, 60, false)
  {
    var p := NewPlan(50000, 6000, 60, true);
    StartInvariant(p, 0);
    RunApplies(p, Start(0), 60);
    RunSplit(p, Start(0), 60, 1);
  }

  /**
   * A 1 000 Wh battery holding 900 Wh offered 200 Wh per tick: the first
   * tick would overfill it, so the cycle ends at once with the charge unchanged.
   */
  lemma ScenarioBatteryFull()
    ensures Run(NewPlan(1000, 2000, 10, false), Start(900), 1)
            == Meter(900, false, 1, 0, 0, 0, false)
  {
  }
}
