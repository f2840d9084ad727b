/**
 The fire-rate gate shared by enemies and player weapons: a stored
 "next fire time"; a call at time `now` acts only when `now` has reached it,
 and then moves it to `now + 1 / fireRate`.

 The division is IEEE float division: a fire rate of zero gives +Infinity,
 and a gate set to +Infinity never opens again. `Never` stands for that
 value; other float effects (rounding, NaN) are not modelled.
 */
module FireGate {

  datatype Deadline = At(time: real) | Never

  /** The gate's comparison `now >= nextFireTime`. */
  predicate Open(d: Deadline, now: real)
  {
    d.At? && now >= d.time
  }

  /** The value `now + 1 / fireRate` stored after acting. */
  function After(now: real, fireRate: real): Deadline
  {
    if fireRate == 0.0 then Never else At(now + 1.0 / fireRate)
  }

  /** Outcome of one gated call: whether it acted, and the stored next fire time. */
  datatype Gate = Gate(fired: bool, next: Deadline)

  function Try(d: Deadline, now: real, fireRate: real): (g: Gate)
    ensures g.fired <==> Open(d, now)
    ensures !g.fired ==> g.next == d
    ensures g.fired && fireRate > 0.0 ==> g.next.At? && g.next.time > now && !Open(g.next, now)
    ensures g.fired && fireRate == 0.0 ==> g.next == Never
  {
    if Open(d, now) then Gate(true, After(now, fireRate)) else Gate(false, d)
  }

  /**
   With a positive fire rate, two shots let through one after the other are
   at least one period `1 / fireRate` apart, whatever the times of the calls.
   */
  lemma ShotsAreOnePeriodApart(d: Deadline, t1: real, t2: real, fireRate: real)
    requires fireRate > 0.0
    requires Try(d, t1, fireRate).fired
    requires Try(Try(d, t1, fireRate).next, t2, fireRate).fired
    ensures t2 - t1 >= 1.0 / fireRate
  {
  }

  /** A gate whose fire rate was zero when it last fired stays shut for ever. */
  lemma ZeroRateShutsForever(d: Deadline, t1: real, t2: real)
    requires Try(d, t1, 0.0).fired
    ensures !Try(Try(d, t1, 0.0).next, t2, 0.0).fired
  {
  }

  /** A fresh gate holds the float default 0, so it opens at every non-negative time. */
  lemma FreshGateOpensAtNonNegativeTime(now: real, fireRate: real)
    requires now >= 0.0
    ensures Try(At(0.0), now, fireRate).fired
  {
  }
}
