/**
 The player's health: set to the maximum on load, lowered by damage and
 raised by healing, always clamped into `[0, maxHealth]`, with a
 health-changed notification on every change and a death notification
 after every damage that leaves the player at zero.
 */
module PlayerController {
  import opened Common

  datatype Player = Player(maxHealth: int, currentHealth: int)

  datatype PlayerEvent = HealthChanged(current: int, max: int) | PlayerDied

  datatype Change = Change(player: Player, events: seq<PlayerEvent>)

  /** Health in range, given a sensible (non-negative) maximum. */
  predicate Healthy(p: Player)
  {
    0 <= p.currentHealth <= p.maxHealth
  }

  /** Loading the player: full health. */
  function Awake(maxHealth: int): (p: Player)
    ensures p.maxHealth == maxHealth && p.currentHealth == maxHealth
    ensures maxHealth >= 0 ==> Healthy(p)
  {
    Player(maxHealth, maxHealth)
  }

  function TakeDamage(p: Player, amount: int): (r: Change)
    ensures r.player.maxHealth == p.maxHealth
    ensures r.player.currentHealth == Clamp(p.currentHealth - amount, 0, p.maxHealth)
    ensures p.maxHealth >= 0 ==> Healthy(r.player)
    ensures p.maxHealth >= 0 && 0 <= p.currentHealth - amount <= p.maxHealth ==>
      r.player.currentHealth == p.currentHealth - amount
    // one health notification carrying the clamped health, then a death report at zero or below
    ensures |r.events| >= 1 && r.events[0] == HealthChanged(r.player.currentHealth, p.maxHealth)
    ensures r.events[1..] == (if r.player.currentHealth <= 0 then [PlayerDied] else [])
  {
    var h := Clamp(p.currentHealth - amount, 0, p.maxHealth);
    var events := [HealthChanged(h, p.maxHealth)] + (if h <= 0 then [PlayerDied] else []);
    assert events[1..] == (if h <= 0 then [PlayerDied] else []);
    Change(p.(currentHealth := h), events)
  }

  function Heal(p: Player, amount: int): (r: Change)
    ensures r.player.maxHealth == p.maxHealth
    ensures r.player.currentHealth == Clamp(p.currentHealth + amount, 0, p.maxHealth)
    ensures p.maxHealth >= 0 ==> Healthy(r.player)
    ensures p.maxHealth >= 0 && 0 <= p.currentHealth + amount <= p.maxHealth ==>
      r.player.currentHealth == p.currentHealth + amount
    // exactly one health notification and never a death report
    ensures r.events == [HealthChanged(r.player.currentHealth, p.maxHealth)]
  {
    var h := Clamp(p.currentHealth + amount, 0, p.maxHealth);
    Change(p.(currentHealth := h), [HealthChanged(h, p.maxHealth)])
  }

  /** Healing by the damage just taken restores health when the damage was not clamped. */
  lemma HealUndoesUnclampedDamage(p: Player, amount: int)
    requires Healthy(p) && 0 <= amount <= p.currentHealth
    ensures Heal(TakeDamage(p, amount).player, amount).player == p
  {
  }

  /** Death is not reported once only: every further hit on a player at zero reports it again. */
  lemma DeathIsReportedOnEveryLethalHit(p: Player, a1: int, a2: int)
    requires Healthy(p) && a1 >= p.currentHealth && a2 >= 0
    ensures PlayerDied in TakeDamage(p, a1).events
    ensures PlayerDied in TakeDamage(TakeDamage(p, a1).player, a2).events
  {
    assert TakeDamage(p, a1).events[1..] == [PlayerDied];
    assert TakeDamage(TakeDamage(p, a1).player, a2).events[1..] == [PlayerDied];
  }

  datatype HealthOp = Damage(amount: int) | Healing(amount: int)

  function ApplyOp(p: Player, op: HealthOp): Change
  {
    match op
    case Damage(a) => TakeDamage(p, a)
    case Healing(a) => Heal(p, a)
  }

  /** A run of damage and healing, with all notifications in order. */
  function Run(p: Player, ops: seq<HealthOp>): Change
    decreases ops
  {
    if ops == [] then Change(p, [])
    else
      var first := ApplyOp(p, ops[0]);
      var rest := Run(first.player, ops[1..]);
      Change(rest.player, first.events + rest.events)
  }

  /** Number of health-changed notifications in a list of events. */
  function Changes(evs: seq<PlayerEvent>): nat
  {
    if evs == [] then 0 else (if evs[0].HealthChanged? then 1 else 0) + Changes(evs[1..])
  }

  lemma {:induction false} ChangesConcat(a: seq<PlayerEvent>, b: seq<PlayerEvent>)
    ensures Changes(a + b) == Changes(a) + Changes(b)
  {
    if a != [] {
      assert (a + b)[1..] == a[1..] + b;
      ChangesConcat(a[1..], b);
    } else {
      assert a + b == b;
    }
  }

  /**
   Over any run of damage and healing from a loaded player the health stays
   in range, the maximum never changes, and there is exactly one
   health-changed notification per operation, each carrying the maximum
   and an in-range health.
   */
  lemma {:induction false} RunStaysHealthy(p: Player, ops: seq<HealthOp>)
    requires Healthy(p)
    ensures var r := Run(p, ops);
      && Healthy(r.player) && r.player.maxHealth == p.maxHealth
      && Changes(r.events) == |ops|
      && forall e | e in r.events && e.HealthChanged? :: e.max == p.maxHealth && 0 <= e.current <= p.maxHealth
    decreases ops
  {
    if ops != [] {
      var first := ApplyOp(p, ops[0]);
      var rest := Run(first.player, ops[1..]);
      RunStaysHealthy(first.player, ops[1..]);
      ChangesConcat(first.events, rest.events);
      assert Changes(first.events) == 1 by {
        assert first.events == [HealthChanged(first.player.currentHealth, p.maxHealth)] + first.events[1..];
        assert first.events[1..] == [] || first.events[1..] == [PlayerDied];
      }
    }
  }
}
