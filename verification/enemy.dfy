/**
 An enemy: health reset on every activation from the pool, per-frame
 behaviour by kind (chaser, kiter, turret), a fire-rate gate for shooting,
 damage with a once-per-activation death, and contact damage to the player.

 Movement is abstracted to the decision taken (approach, retreat, hold);
 the distance to the player is an input. What the enemy asks of other
 components (a projectile from the pool, the death event, its own despawn,
 notifications and damage to the player) is returned as data.
 */
module EnemyController {
  import opened Common
  import FireGate

  datatype Behaviour = Chaser | Kiter | Turret

  datatype EnemyConfig = EnemyConfig(
    kind: Behaviour,
    stoppingDistance: real,
    retreatDistance: real,
    maxHealth: int,
    contactDamage: int,
    projectilePrefab: Option<Template>,
    fireRate: real,
    projectileSpeed: real,
    projectileDamage: int)

  datatype Enemy = Enemy(
    currentHealth: int,
    isDead: bool,
    hasPlayer: bool,                   // whether the player reference is set
    nextFireTime: FireGate.Deadline)

  /** The component as loaded, before any activation: every field holds its default. */
  function Created(): (e: Enemy)
    ensures !e.hasPlayer && !e.isDead
    ensures forall now: real | now >= 0.0 :: FireGate.Open(e.nextFireTime, now)
  {
    Enemy(0, false, false, FireGate.At(0.0))
  }

  /**
   Activation (also on every reuse from the pool): full health, not dead,
   and the player reference refreshed when a player is found; a failed
   search keeps the old reference. The fire gate is not reset.
   */
  function OnEnable(cfg: EnemyConfig, e: Enemy, playerFound: bool): (r: Enemy)
    ensures r.currentHealth == cfg.maxHealth && !r.isDead
    ensures r.hasPlayer <==> playerFound || e.hasPlayer
    ensures r.nextFireTime == e.nextFireTime
  {
    Enemy(cfg.maxHealth, false, playerFound || e.hasPlayer, e.nextFireTime)
  }

  // ---------------------------------------------------------------------------
  // Behaviour

  datatype Move = Approach | Retreat | Hold

  /** The kiter keeps to a band: approach when too far, retreat when too close, else hold. */
  function KiterMove(cfg: EnemyConfig, distance: real): (m: Move)
    ensures m == Approach <==> distance > cfg.stoppingDistance
    ensures m == Retreat <==> distance <= cfg.stoppingDistance && distance < cfg.retreatDistance
    ensures m == Hold <==> cfg.retreatDistance <= distance <= cfg.stoppingDistance
  {
    if distance > cfg.stoppingDistance then Approach
    else if distance < cfg.retreatDistance then Retreat
    else Hold
  }

  /** What an enemy asks of the world in one frame. */
  datatype Action = Moved(move: Move) | Fired(prefab: Template, speed: real, damage: int)

  datatype Tick = Tick(enemy: Enemy, actions: seq<Action>)

  /** Firing itself: nothing without a projectile prefab, else one projectile from the pool. */
  function Shoot(cfg: EnemyConfig): (acts: seq<Action>)
    ensures cfg.projectilePrefab.None? <==> acts == []
    ensures cfg.projectilePrefab.Some? ==>
      acts == [Fired(cfg.projectilePrefab.value, cfg.projectileSpeed, cfg.projectileDamage)]
  {
    match cfg.projectilePrefab
    case None => []
    case Some(t) => [Fired(t, cfg.projectileSpeed, cfg.projectileDamage)]
  }

  /**
   The fire gate: when due, shoot and move the gate one period ahead (even
   when there is no prefab to shoot); otherwise nothing changes.
   */
  function AttemptToShoot(cfg: EnemyConfig, e: Enemy, now: real): (t: Tick)
    ensures !FireGate.Open(e.nextFireTime, now) ==> t == Tick(e, [])
    ensures FireGate.Open(e.nextFireTime, now) ==>
      && t.enemy == e.(nextFireTime := FireGate.After(now, cfg.fireRate))
      && t.actions == Shoot(cfg)
    ensures forall a | a in t.actions :: a.Fired?
  {
    var g := FireGate.Try(e.nextFireTime, now, cfg.fireRate);
    if g.fired then Tick(e.(nextFireTime := g.next), Shoot(cfg)) else Tick(e, [])
  }

  /** One frame of behaviour; `distance` is the current distance to the player. */
  function Update(cfg: EnemyConfig, e: Enemy, now: real, distance: real): (t: Tick)
    // without a player reference nothing happens
    ensures !e.hasPlayer ==> t == Tick(e, [])
    // a chaser only moves toward the player
    ensures e.hasPlayer && cfg.kind == Chaser ==> t == Tick(e, [Moved(Approach)])
    // a kiter decides its move, then always goes through the fire gate
    ensures e.hasPlayer && cfg.kind == Kiter ==>
      && |t.actions| >= 1 && t.actions[0] == Moved(KiterMove(cfg, distance))
      && Tick(t.enemy, t.actions[1..]) == AttemptToShoot(cfg, e, now)
    // a turret never moves and only goes through the fire gate
    ensures e.hasPlayer && cfg.kind == Turret ==>
      t == AttemptToShoot(cfg, e, now) && forall a | a in t.actions :: !a.Moved?
    // health and death flag are never touched by behaviour
    ensures t.enemy.currentHealth == e.currentHealth && t.enemy.isDead == e.isDead
  {
    if !e.hasPlayer then Tick(e, [])
    else
      match cfg.kind
      case Chaser => Tick(e, [Moved(Approach)])
      case Kiter =>
        var s := AttemptToShoot(cfg, e, now);
        var acts := [Moved(KiterMove(cfg, distance))] + s.actions;
        assert acts[1..] == s.actions;
        Tick(s.enemy, acts)
      case Turret => AttemptToShoot(cfg, e, now)
  }

  /** A frame: the time and the distance to the player at that frame. */
  datatype Frame = Frame(now: real, distance: real)

  /** Several frames of behaviour in a row, their actions concatenated in order. */
  function Frames(cfg: EnemyConfig, e: Enemy, fs: seq<Frame>): Tick
    decreases fs
  {
    if fs == [] then Tick(e, [])
    else
      var first := Update(cfg, e, fs[0].now, fs[0].distance);
      var rest := Frames(cfg, first.enemy, fs[1..]);
      Tick(rest.enemy, first.actions + rest.actions)
  }

  /**
   An enemy fires at most once per period: after a frame at time `t` in
   which a kiter or turret went through its open gate with a positive fire
   rate (and so shot, if it has a projectile prefab), no run of frames
   before `t + 1 / fireRate` fires again or moves its gate, whatever the
   distances.
   */
  lemma EnemyShotsAreOnePeriodApart(cfg: EnemyConfig, e: Enemy, t: real, distance: real, later: seq<Frame>)
    requires cfg.fireRate > 0.0
    requires e.hasPlayer && cfg.kind != Chaser && FireGate.Open(e.nextFireTime, t)
    requires forall k | 0 <= k < |later| :: later[k].now < t + 1.0 / cfg.fireRate
    ensures var u := Update(cfg, e, t, distance);
      && (cfg.projectilePrefab.Some? ==> u.actions[|u.actions| - 1] == Shoot(cfg)[0])
      && u.enemy.nextFireTime == FireGate.At(t + 1.0 / cfg.fireRate)
      && Frames(cfg, u.enemy, later).enemy == u.enemy
      && forall a | a in Frames(cfg, u.enemy, later).actions :: !a.Fired?
  {
    var u := Update(cfg, e, t, distance);
    FramesBeforeDeadline(cfg, u.enemy, later);
  }

  lemma {:induction false} FramesBeforeDeadline(cfg: EnemyConfig, e: Enemy, fs: seq<Frame>)
    requires e.nextFireTime.At?
    requires forall k | 0 <= k < |fs| :: fs[k].now < e.nextFireTime.time
    ensures Frames(cfg, e, fs).enemy == e
    ensures forall a | a in Frames(cfg, e, fs).actions :: !a.Fired?
    decreases fs
  {
    if fs != [] {
      assert !FireGate.Open(e.nextFireTime, fs[0].now);
      FramesBeforeDeadline(cfg, e, fs[1..]);
    }
  }

  // ---------------------------------------------------------------------------
  // Damage and death

  /** What a death asks of the world: the death event for the director, then a despawn of this enemy. */
  datatype DeathEvent = Died | DespawnedSelf

  datatype Hurt = Hurt(enemy: Enemy, events: seq<DeathEvent>)

  /** The death path, guarded so that it runs once per activation. */
  function Die(e: Enemy): (r: Hurt)
    ensures e.isDead ==> r == Hurt(e, [])
    ensures !e.isDead ==> r.enemy == e.(isDead := true) && r.events == [Died, DespawnedSelf]
  {
    if e.isDead then Hurt(e, []) else Hurt(e.(isDead := true), [Died, DespawnedSelf])
  }

  /** Lose exactly `amount` health; at zero or below take the death path. */
  function TakeDamage(e: Enemy, amount: int): (r: Hurt)
    ensures r.enemy.currentHealth == e.currentHealth - amount
    ensures r.enemy.isDead <==> e.isDead || e.currentHealth - amount <= 0
    ensures r.events != [] <==> !e.isDead && e.currentHealth - amount <= 0
    ensures r.events != [] ==> r.events == [Died, DespawnedSelf]
    ensures r.enemy.hasPlayer == e.hasPlayer && r.enemy.nextFireTime == e.nextFireTime
  {
    var e1 := e.(currentHealth := e.currentHealth - amount);
    if e1.currentHealth <= 0 then Die(e1) else Hurt(e1, [])
  }

  /** Several hits in a row, their death-path requests concatenated in order. */
  function TakeDamages(e: Enemy, amounts: seq<int>): (r: Hurt)
    ensures r.enemy.hasPlayer == e.hasPlayer && r.enemy.nextFireTime == e.nextFireTime
    ensures e.isDead ==> r.enemy.isDead && r.events == []
    decreases amounts
  {
    if amounts == [] then Hurt(e, [])
    else
      var first := TakeDamage(e, amounts[0]);
      var rest := TakeDamages(first.enemy, amounts[1..]);
      Hurt(rest.enemy, first.events + rest.events)
  }

  function Sum(s: seq<int>): int
  {
    if s == [] then 0 else s[0] + Sum(s[1..])
  }

  /** Some prefix of the hits brings health from `h` to zero or below. */
  predicate Lethal(h: int, amounts: seq<int>)
  {
    exists k | 1 <= k <= |amounts| :: h - Sum(amounts[..k]) <= 0
  }

  lemma LethalUnfold(h: int, amounts: seq<int>)
    requires amounts != []
    ensures Lethal(h, amounts) <==> h - amounts[0] <= 0 || Lethal(h - amounts[0], amounts[1..])
  {
    forall k | 1 <= k <= |amounts|
      ensures Sum(amounts[..k]) == amounts[0] + Sum(amounts[1..][..k - 1])
    {
      assert amounts[..k][1..] == amounts[1..][..k - 1];
    }
    if Lethal(h, amounts) && h - amounts[0] > 0 {
      var k :| 1 <= k <= |amounts| && h - Sum(amounts[..k]) <= 0;
      assert k != 1 by { assert amounts[..1] == [amounts[0]]; }
      assert (h - amounts[0]) - Sum(amounts[1..][..k - 1]) <= 0;
    }
    if h - amounts[0] <= 0 {
      assert amounts[..1] == [amounts[0]];
      assert h - Sum(amounts[..1]) <= 0;
    }
    if Lethal(h - amounts[0], amounts[1..]) {
      var j :| 1 <= j <= |amounts[1..]| && (h - amounts[0]) - Sum(amounts[1..][..j]) <= 0;
      assert h - Sum(amounts[..j + 1]) <= 0;
    }
  }

  /**
   Within one activation an enemy dies at most once: over any sequence of
   hits the death event is raised once exactly when the enemy was alive and
   some prefix of the hits took its health to zero or below, and never
   otherwise; every death is followed by exactly one despawn request.
   */
  lemma {:induction false} DiesAtMostOnce(e: Enemy, amounts: seq<int>)
    ensures Count(TakeDamages(e, amounts).events, Died) == (if !e.isDead && Lethal(e.currentHealth, amounts) then 1 else 0)
    ensures Count(TakeDamages(e, amounts).events, DespawnedSelf) == Count(TakeDamages(e, amounts).events, Died)
    ensures TakeDamages(e, amounts).enemy.currentHealth == e.currentHealth - Sum(amounts)
    decreases amounts
  {
    if amounts != [] {
      var first := TakeDamage(e, amounts[0]);
      var rest := TakeDamages(first.enemy, amounts[1..]);
      DiesAtMostOnce(first.enemy, amounts[1..]);
      CountConcat(first.events, rest.events, Died);
      CountConcat(first.events, rest.events, DespawnedSelf);
      LethalUnfold(e.currentHealth, amounts);
      if first.events != [] {
        assert Count(first.events, Died) == 1 && Count(first.events, DespawnedSelf) == 1;
      } else {
        assert Count(first.events, Died) == 0 && Count(first.events, DespawnedSelf) == 0;
      }
    }
  }

  /**
   A pooled enemy lives again after reuse: whatever hits it took before,
   reactivation lets it die exactly once more (when the new hits are lethal
   from full health), and its fire gate carries over from the earlier life.
   */
  lemma ReusedEnemyDiesAgain(cfg: EnemyConfig, e: Enemy, before: seq<int>, playerFound: bool, after: seq<int>)
    ensures var again := OnEnable(cfg, TakeDamages(e, before).enemy, playerFound);
      && again.nextFireTime == e.nextFireTime
      && Count(TakeDamages(again, after).events, Died) == (if Lethal(cfg.maxHealth, after) then 1 else 0)
      && TakeDamages(again, after).enemy.currentHealth == cfg.maxHealth - Sum(after)
  {
    var again := OnEnable(cfg, TakeDamages(e, before).enemy, playerFound);
    DiesAtMostOnce(again, after);
  }

  // ---------------------------------------------------------------------------
  // Contact damage

  /** Requests to the player's side: the hit notification and damage to the player's health. */
  datatype PlayerHitEffect = PlayerHitNotified | PlayerDamaged(amount: int)

  /**
   A physical collision: with a player-tagged object, announce the hit and
   deal exactly the contact damage when the object has the player
   component; with anything else, nothing.
   */
  function OnCollisionEnter(cfg: EnemyConfig, other: Collider): (fx: seq<PlayerHitEffect>)
    ensures other.tag != PlayerTag ==> fx == []
    ensures other.tag == PlayerTag ==> |fx| >= 1 && fx[0] == PlayerHitNotified
    ensures forall a | a in fx :: a.PlayerDamaged? ==> a.amount == cfg.contactDamage
    ensures PlayerDamaged(cfg.contactDamage) in fx <==> other.tag == PlayerTag && other.hasPlayer
    ensures |fx| <= 2
  {
    if other.tag == PlayerTag then
      [PlayerHitNotified] + (if other.hasPlayer then [PlayerDamaged(cfg.contactDamage)] else [])
    else []
  }
}
