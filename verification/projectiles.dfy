/**
 The player's projectile (also used for melee slashes): initialised with
 damage, speed, an explosive flag and a radius, it schedules its own
 despawn after five seconds; on touching an enemy-tagged collider it either
 damages that enemy or explodes, damaging every enemy and the player in
 the blast, and then returns itself to the pool.

 The colliders inside the blast radius are an input (the physics query is
 not modelled). Damage is a float that is cast to an integer when dealt.
 */
module PlayerProjectile {
  import opened Common

  datatype Projectile = Projectile(damage: real, speed: real, isExplosive: bool, explosionRadius: real)

  /** Requests of a player projectile to the world. */
  datatype Effect =
    | EnemyDamaged(enemy: Instance, amount: int)
    | PlayerDamaged(amount: int)
    | DespawnSelf
    | DespawnSelfAfter(delay: real)

  /** The projectile's fixed lifetime, in seconds. */
  const Lifetime: real := 5.0

  /** Take the given parameters and schedule the lifetime despawn. */
  function Initialize(damage: real, speed: real, explosive: bool, radius: real): (r: (Projectile, seq<Effect>))
    ensures r.0 == Projectile(damage, speed, explosive, radius)
    ensures r.1 == [DespawnSelfAfter(5.0)]
  {
    (Projectile(damage, speed, explosive, radius), [DespawnSelfAfter(Lifetime)])
  }

  /** Damage dealt to one collider of the blast: its enemy takes the full damage, its player half. */
  function BlastOne(p: Projectile, c: Collider): seq<Effect>
  {
    (if c.enemy.Some? then [EnemyDamaged(c.enemy.value, Truncate(p.damage))] else [])
    + (if c.hasPlayer then [PlayerDamaged(Truncate(p.damage / 2.0))] else [])
  }

  /** The explosion: every collider in the blast, in the order the physics query returned them. */
  function Explode(p: Projectile, hits: seq<Collider>): (fx: seq<Effect>)
    ensures forall e | e in fx :: e.EnemyDamaged? || e.PlayerDamaged?
    decreases hits
  {
    if hits == [] then [] else BlastOne(p, hits[0]) + Explode(p, hits[1..])
  }

  /**
   A trigger contact. Only enemy-tagged colliders count. An explosive
   projectile damages the blast (and not the struck collider as such); a
   plain one damages the struck collider's enemy, if it has one. Either way
   the projectile then despawns itself, exactly once.
   */
  function OnTriggerEnter(p: Projectile, other: Collider, blast: seq<Collider>): (fx: seq<Effect>)
    ensures other.tag != EnemyTag ==> fx == []
    ensures other.tag == EnemyTag ==> |fx| >= 1 && fx[|fx| - 1] == DespawnSelf && DespawnSelf !in fx[..|fx| - 1]
    ensures other.tag == EnemyTag && p.isExplosive ==> fx[..|fx| - 1] == Explode(p, blast)
    ensures other.tag == EnemyTag && !p.isExplosive ==>
      fx[..|fx| - 1] == (if other.enemy.Some? then [EnemyDamaged(other.enemy.value, Truncate(p.damage))] else [])
    ensures forall e | e in fx :: e != DespawnSelfAfter(Lifetime)
  {
    if other.tag != EnemyTag then []
    else
      var dealt := if p.isExplosive then Explode(p, blast)
                   else if other.enemy.Some? then [EnemyDamaged(other.enemy.value, Truncate(p.damage))]
                   else [];
      assert (dealt + [DespawnSelf])[..|dealt|] == dealt;
      dealt + [DespawnSelf]
  }

  function Hits<T>(s: seq<T>, f: T -> bool): nat
  {
    if s == [] then 0 else (if f(s[0]) then 1 else 0) + Hits(s[1..], f)
  }

  /** One blast collider: its enemy, if any, takes the full damage once; its player, if any, half once. */
  lemma BlastOneCounts(p: Projectile, c: Collider, e: Instance)
    ensures Count(BlastOne(p, c), EnemyDamaged(e, Truncate(p.damage))) == (if c.enemy == Some(e) then 1 else 0)
    ensures Count(BlastOne(p, c), PlayerDamaged(Truncate(p.damage / 2.0))) == (if c.hasPlayer then 1 else 0)
    ensures forall x | x in BlastOne(p, c) ::
      (x.EnemyDamaged? ==> x.amount == Truncate(p.damage) && c.enemy == Some(x.enemy))
      && (x.PlayerDamaged? ==> x.amount == Truncate(p.damage / 2.0))
  {
    var a := if c.enemy.Some? then [EnemyDamaged(c.enemy.value, Truncate(p.damage))] else [];
    var b := if c.hasPlayer then [PlayerDamaged(Truncate(p.damage / 2.0))] else [];
    CountConcat(a, b, EnemyDamaged(e, Truncate(p.damage)));
    CountConcat(a, b, PlayerDamaged(Truncate(p.damage / 2.0)));
    if c.enemy.Some? { assert a[1..] == []; }
    if c.hasPlayer { assert b[1..] == []; }
  }

  /**
   The blast, counted: an enemy takes the full truncated damage once for each
   blast collider that carries it, the player takes half the damage (cast
   after halving) once for each player collider, and nothing else is dealt.
   */
  lemma {:induction false} ExplodeCounts(p: Projectile, hits: seq<Collider>, e: Instance)
    ensures Count(Explode(p, hits), EnemyDamaged(e, Truncate(p.damage))) == Hits(hits, (c: Collider) => c.enemy == Some(e))
    ensures Count(Explode(p, hits), PlayerDamaged(Truncate(p.damage / 2.0))) == Hits(hits, (c: Collider) => c.hasPlayer)
    ensures forall x | x in Explode(p, hits) ::
      (x.EnemyDamaged? ==> x.amount == Truncate(p.damage) && exists c | c in hits :: c.enemy == Some(x.enemy))
      && (x.PlayerDamaged? ==> x.amount == Truncate(p.damage / 2.0))
    decreases hits
  {
    if hits != [] {
      var head := BlastOne(p, hits[0]);
      var tail := Explode(p, hits[1..]);
      assert Explode(p, hits) == head + tail;
      ExplodeCounts(p, hits[1..], e);
      BlastOneCounts(p, hits[0], e);
      CountConcat(head, tail, EnemyDamaged(e, Truncate(p.damage)));
      CountConcat(head, tail, PlayerDamaged(Truncate(p.damage / 2.0)));
      forall x: Effect | x in head + tail && x.EnemyDamaged?
        ensures exists c' | c' in hits :: c'.enemy == Some(x.enemy)
      {
        if x in head { assert hits[0] in hits; }
        else {
          var c' :| c' in hits[1..] && c'.enemy == Some(x.enemy);
          assert c' in hits;
        }
      }
    }
  }

  /** A plain hit deals the truncated damage to the struck enemy only, and never to the player. */
  lemma PlainHitDamagesStruckEnemyOnly(p: Projectile, e: Instance, blast: seq<Collider>)
    requires !p.isExplosive
    ensures OnTriggerEnter(p, Collider(EnemyTag, Some(e), false), blast)
         == [EnemyDamaged(e, Truncate(p.damage)), DespawnSelf]
  {
  }
}

/**
 An enemy's projectile: one damage and a five-second lifetime by default;
 initialised with a speed and damage, it schedules its own despawn after its
 lifetime; on touching the player it announces the hit, damages the player
 and despawns; on touching a wall or an obstacle it only despawns; anything
 else it passes through.
 */
module EnemyProjectile {
  import opened Common
  import EnemyController

  datatype Projectile = Projectile(speed: real, damage: int, lifetime: real)

  /** Requests of an enemy projectile to the world. */
  datatype Effect =
    | PlayerHitNotified
    | PlayerDamaged(amount: int)
    | DespawnSelf
    | DespawnSelfAfter(delay: real)

  /** The component as loaded: no speed, one damage, five seconds of lifetime. */
  function Created(): (p: Projectile)
    ensures p.damage == 1 && p.lifetime == 5.0
  {
    Projectile(0.0, 1, 5.0)
  }

  /** Take speed and damage (the lifetime is kept) and schedule the lifetime despawn. */
  function Initialize(p: Projectile, speed: real, damage: int): (r: (Projectile, seq<Effect>))
    ensures r.0 == Projectile(speed, damage, p.lifetime)
    ensures r.1 == [DespawnSelfAfter(p.lifetime)]
  {
    (p.(speed := speed, damage := damage), [DespawnSelfAfter(p.lifetime)])
  }

  function OnTriggerEnter(p: Projectile, c: Collider): (fx: seq<Effect>)
    ensures c.tag == PlayerTag ==>
      fx == [PlayerHitNotified] + (if c.hasPlayer then [PlayerDamaged(p.damage)] else []) + [DespawnSelf]
    ensures c.tag == WallTag || c.tag == ObstacleTag ==> fx == [DespawnSelf]
    ensures c.tag !in {PlayerTag, WallTag, ObstacleTag} ==> fx == []
  {
    if c.tag == PlayerTag then
      [PlayerHitNotified] + (if c.hasPlayer then [PlayerDamaged(p.damage)] else []) + [DespawnSelf]
    else if c.tag == WallTag || c.tag == ObstacleTag then [DespawnSelf]
    else []
  }

  /** A contact despawns the projectile at most once, and always last. */
  lemma DespawnsAtMostOnce(p: Projectile, c: Collider)
    ensures var fx := OnTriggerEnter(p, c);
      Count(fx, DespawnSelf) == (if c.tag in {PlayerTag, WallTag, ObstacleTag} then 1 else 0)
      && (fx != [] ==> fx[|fx| - 1] == DespawnSelf)
      && (fx != [] ==> Count(fx, DespawnSelf) == 1)
  {
    var fx := OnTriggerEnter(p, c);
    if c.tag == PlayerTag {
      if c.hasPlayer {
        assert fx == [PlayerHitNotified, PlayerDamaged(p.damage), DespawnSelf];
        assert fx[1..] == [PlayerDamaged(p.damage), DespawnSelf];
        assert fx[1..][1..] == [DespawnSelf];
        assert fx[1..][1..][1..] == [];
        assert Count(fx[1..][1..], DespawnSelf) == 1;
        assert Count(fx[1..], DespawnSelf) == 1;
      } else {
        assert fx == [PlayerHitNotified, DespawnSelf];
        assert fx[1..] == [DespawnSelf];
        assert fx[1..][1..] == [];
        assert Count(fx[1..], DespawnSelf) == 1;
      }
    } else if c.tag == WallTag || c.tag == ObstacleTag {
      assert fx[1..] == [];
    }
  }

  /** The player's side of a contact: the notification, then the damage. */
  function ToPlayer(fx: seq<Effect>): seq<EnemyController.PlayerHitEffect>
  {
    if fx == [] then []
    else
      (match fx[0]
       case PlayerHitNotified => [EnemyController.PlayerHitNotified]
       case PlayerDamaged(a) => [EnemyController.PlayerDamaged(a)]
       case _ => [])
      + ToPlayer(fx[1..])
  }

  /**
   A projectile reaches the player exactly as a body contact does: for any
   collider, the player-facing requests of the projectile equal those of an
   enemy whose contact damage is the projectile's damage.
   */
  lemma {:induction false} HitsLikeContact(p: Projectile, cfg: EnemyController.EnemyConfig, c: Collider)
    requires cfg.contactDamage == p.damage
    ensures ToPlayer(OnTriggerEnter(p, c)) == EnemyController.OnCollisionEnter(cfg, c)
  {
    var fx := OnTriggerEnter(p, c);
    if c.tag == PlayerTag {
      if c.hasPlayer {
        assert fx == [PlayerHitNotified, PlayerDamaged(p.damage), DespawnSelf];
        assert fx[1..] == [PlayerDamaged(p.damage), DespawnSelf];
        assert fx[1..][1..] == [DespawnSelf];
        assert fx[1..][1..][1..] == [];
        assert ToPlayer(fx[1..][1..]) == [];
        assert ToPlayer(fx[1..]) == [EnemyController.PlayerDamaged(p.damage)];
      } else {
        assert fx == [PlayerHitNotified, DespawnSelf];
        assert fx[1..] == [DespawnSelf];
        assert fx[1..][1..] == [];
        assert ToPlayer(fx[1..]) == [];
      }
    } else if c.tag == WallTag || c.tag == ObstacleTag {
      assert fx[1..] == [];
    }
  }
}
