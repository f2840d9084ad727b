/**
 How the components meet: a spawn routine's requests carried out against
 the object pools, an enemy's death events delivered to the wave director,
 and the life of a melee slash, which is not a pooled object.
 */
module Game {
  import opened Common
  import FireGate
  import PoolManager
  import EnemySpawner
  import EnemyController
  import HordeManager
  import Weapons
  import PlayerProjectile

  // ---------------------------------------------------------------------------
  // Spawn routines against the pools

  /** The pools, the instance each slot of a routine holds, and the instances announced so far. */
  datatype Exec = Exec(
    pools: PoolManager.Pools,
    slots: map<EnemySpawner.Slot, PoolManager.ObjRef>,
    notified: seq<PoolManager.ObjRef>)

  /** A routine's slot variable; unassigned slots hold null. */
  function SlotRef(x: Exec, s: EnemySpawner.Slot): PoolManager.ObjRef
  {
    if s in x.slots then x.slots[s] else PoolManager.Null
  }

  /** The pool's choice for a spawn request fits the pools as they are then. */
  predicate Fits(x: Exec, q: EnemySpawner.SpawnRequest, pick: Instance)
  {
    q.PoolSpawn? && q.prefab.Some? ==> PoolManager.PickFits(x.pools, q.prefab.value, pick)
  }

  /** Carry out one request; a despawn of a null slot does nothing, as the pools ignore null. */
  function ExecOne(x: Exec, q: EnemySpawner.SpawnRequest, pick: Instance): Exec
    requires Fits(x, q, pick)
  {
    match q
    case PoolSpawn(s, prefab, _) =>
      var sp := PoolManager.Spawn(x.pools, prefab, pick);
      x.(pools := sp.pools, slots := x.slots[s := sp.inst])
    case Wait(_) => x
    case PoolDespawn(s) => x.(pools := PoolManager.Despawn(x.pools, SlotRef(x, s)))
    case NotifySpawned(s) => x.(notified := x.notified + [SlotRef(x, s)])
  }

  /** Every request of a trace can be carried out with its pick (`picks[i]` serves `trace[i]`). */
  predicate FitsAll(x: Exec, trace: seq<EnemySpawner.SpawnRequest>, picks: seq<Instance>)
    decreases trace
  {
    |picks| == |trace|
    && (trace == [] || (Fits(x, trace[0], picks[0]) && FitsAll(ExecOne(x, trace[0], picks[0]), trace[1..], picks[1..])))
  }

  function ExecAll(x: Exec, trace: seq<EnemySpawner.SpawnRequest>, picks: seq<Instance>): Exec
    requires FitsAll(x, trace, picks)
    decreases trace
  {
    if trace == [] then x else ExecAll(ExecOne(x, trace[0], picks[0]), trace[1..], picks[1..])
  }

  lemma Unfold(x: Exec, trace: seq<EnemySpawner.SpawnRequest>, picks: seq<Instance>)
    requires FitsAll(x, trace, picks) && trace != []
    ensures Fits(x, trace[0], picks[0])
    ensures FitsAll(ExecOne(x, trace[0], picks[0]), trace[1..], picks[1..])
    ensures ExecAll(x, trace, picks) == ExecAll(ExecOne(x, trace[0], picks[0]), trace[1..], picks[1..])
  {
  }

  /** A spawn request on valid pools: valid again, its slot now holds a live instance of the prefab (or null). */
  lemma SpawnStep(x: Exec, s: EnemySpawner.Slot, prefab: Option<Template>, pos: Pos, pick: Instance)
    requires PoolManager.Valid(x.pools)
    requires Fits(x, EnemySpawner.PoolSpawn(s, prefab, pos), pick)
    ensures var y := ExecOne(x, EnemySpawner.PoolSpawn(s, prefab, pos), pick);
      var e := SlotRef(y, s);
      && PoolManager.Valid(y.pools)
      && y.notified == x.notified
      && (forall o | o != s :: SlotRef(y, o) == SlotRef(x, o))
      && (prefab.None? ==> e == PoolManager.Null && y.pools == x.pools)
      && (prefab.Some? ==>
            && e.Obj? && e.id in y.pools.active && e.id in y.pools.route && y.pools.route[e.id] == prefab.value
            && y.pools.active == x.pools.active + {e.id})
  {
    PoolManager.SpawnKeepsValid(x.pools, prefab, pick);
  }

  /** Despawning a slot that holds a pooled instance leaves that instance inactive and the pools valid. */
  lemma DespawnStep(x: Exec, s: EnemySpawner.Slot)
    requires PoolManager.Valid(x.pools)
    requires SlotRef(x, s).Obj? && SlotRef(x, s).id in x.pools.route
    ensures var y := ExecOne(x, EnemySpawner.PoolDespawn(s), 0);
      && PoolManager.Valid(y.pools)
      && y.notified == x.notified && y.slots == x.slots
      && SlotRef(x, s).id !in y.pools.active
  {
    PoolManager.DespawnKeepsValid(x.pools, SlotRef(x, s));
  }

  /**
   A spawn routine carried out on valid pools keeps them valid and announces
   exactly one object, the one it spawned as the enemy: null when the
   enemy prefab is null, otherwise an active instance of that prefab's pool.
   A warning it showed is back in its pool by then, unless the pool handed
   that very instance out again as the enemy.
   */
  lemma RoutineAnnouncesItsEnemy(p: PoolManager.Pools, warningPrefab: Option<Template>, dur: real,
                                 r: EnemySpawner.Routine, picks: seq<Instance>)
    requires PoolManager.Valid(p)
    requires FitsAll(Exec(p, map[], []), EnemySpawner.RoutineTrace(warningPrefab, dur, r), picks)
    ensures var x := ExecAll(Exec(p, map[], []), EnemySpawner.RoutineTrace(warningPrefab, dur, r), picks);
      var e := SlotRef(x, EnemySpawner.EnemySlot);
      && PoolManager.Valid(x.pools)
      && x.notified == [e]
      && (r.prefab.None? ==> e == PoolManager.Null)
      && (r.prefab.Some? ==>
            e.Obj? && e.id in x.pools.active && e.id in x.pools.route && x.pools.route[e.id] == r.prefab.value)
      && (warningPrefab.Some? ==>
            var w := SlotRef(x, EnemySpawner.WarningSlot);
            w.Obj? && (w.id !in x.pools.active || w == e))
  {
    var t := EnemySpawner.RoutineTrace(warningPrefab, dur, r);
    var x0 := Exec(p, map[], []);
    if warningPrefab.Some? {
      WarnedRoutine(x0, warningPrefab.value, dur, r, picks);
    } else {
      UnwarnedRoutine(x0, dur, r, picks);
    }
  }

  /** The tail every routine shares: spawn the enemy, then announce it. */
  lemma EnemyTail(x: Exec, r: EnemySpawner.Routine, picks: seq<Instance>)
    requires PoolManager.Valid(x.pools) && x.notified == []
    requires FitsAll(x, [EnemySpawner.PoolSpawn(EnemySpawner.EnemySlot, r.prefab, r.pos), EnemySpawner.NotifySpawned(EnemySpawner.EnemySlot)], picks)
    ensures var y := ExecAll(x, [EnemySpawner.PoolSpawn(EnemySpawner.EnemySlot, r.prefab, r.pos), EnemySpawner.NotifySpawned(EnemySpawner.EnemySlot)], picks);
      var e := SlotRef(y, EnemySpawner.EnemySlot);
      && PoolManager.Valid(y.pools)
      && y.notified == [e]
      && SlotRef(y, EnemySpawner.WarningSlot) == SlotRef(x, EnemySpawner.WarningSlot)
      && (r.prefab.None? ==> e == PoolManager.Null && y.pools.active == x.pools.active)
      && (r.prefab.Some? ==>
            && e.Obj? && e.id in y.pools.active && e.id in y.pools.route && y.pools.route[e.id] == r.prefab.value
            && y.pools.active == x.pools.active + {e.id})
  {
    var t := [EnemySpawner.PoolSpawn(EnemySpawner.EnemySlot, r.prefab, r.pos), EnemySpawner.NotifySpawned(EnemySpawner.EnemySlot)];
    Unfold(x, t, picks);
    var x1 := ExecOne(x, t[0], picks[0]);
    SpawnStep(x, EnemySpawner.EnemySlot, r.prefab, r.pos, picks[0]);
    Unfold(x1, t[1..], picks[1..]);
    assert t[1..][1..] == [];
  }

  lemma UnwarnedRoutine(x0: Exec, dur: real, r: EnemySpawner.Routine, picks: seq<Instance>)
    requires PoolManager.Valid(x0.pools) && x0.notified == []
    requires FitsAll(x0, EnemySpawner.RoutineTrace(None, dur, r), picks)
    ensures var x := ExecAll(x0, EnemySpawner.RoutineTrace(None, dur, r), picks);
      var e := SlotRef(x, EnemySpawner.EnemySlot);
      && PoolManager.Valid(x.pools)
      && x.notified == [e]
      && (r.prefab.None? ==> e == PoolManager.Null)
      && (r.prefab.Some? ==>
            e.Obj? && e.id in x.pools.active && e.id in x.pools.route && x.pools.route[e.id] == r.prefab.value)
  {
    var t := EnemySpawner.RoutineTrace(None, dur, r);
    assert t == [EnemySpawner.Wait(dur)] + [EnemySpawner.PoolSpawn(EnemySpawner.EnemySlot, r.prefab, r.pos), EnemySpawner.NotifySpawned(EnemySpawner.EnemySlot)];
    Unfold(x0, t, picks);
    EnemyTail(x0, r, picks[1..]);
  }

  lemma WarnedRoutine(x0: Exec, wp: Template, dur: real, r: EnemySpawner.Routine, picks: seq<Instance>)
    requires PoolManager.Valid(x0.pools) && x0.notified == []
    requires FitsAll(x0, EnemySpawner.RoutineTrace(Some(wp), dur, r), picks)
    ensures var x := ExecAll(x0, EnemySpawner.RoutineTrace(Some(wp), dur, r), picks);
      var e := SlotRef(x, EnemySpawner.EnemySlot);
      var w := SlotRef(x, EnemySpawner.WarningSlot);
      && PoolManager.Valid(x.pools)
      && x.notified == [e]
      && (r.prefab.None? ==> e == PoolManager.Null)
      && (r.prefab.Some? ==>
            e.Obj? && e.id in x.pools.active && e.id in x.pools.route && x.pools.route[e.id] == r.prefab.value)
      && w.Obj? && (w.id !in x.pools.active || w == e)
  {
    var t := EnemySpawner.RoutineTrace(Some(wp), dur, r);
    var tail := [EnemySpawner.PoolSpawn(EnemySpawner.EnemySlot, r.prefab, r.pos), EnemySpawner.NotifySpawned(EnemySpawner.EnemySlot)];
    assert t == [EnemySpawner.PoolSpawn(EnemySpawner.WarningSlot, Some(wp), r.pos), EnemySpawner.Wait(dur),
                 EnemySpawner.PoolDespawn(EnemySpawner.WarningSlot)] + tail;
    Unfold(x0, t, picks);
    var x1 := ExecOne(x0, t[0], picks[0]);
    SpawnStep(x0, EnemySpawner.WarningSlot, Some(wp), r.pos, picks[0]);
    var w := SlotRef(x1, EnemySpawner.WarningSlot);
    Unfold(x1, t[1..], picks[1..]);
    assert ExecOne(x1, t[1], picks[1]) == x1;
    Unfold(x1, t[2..], picks[2..]);
    var x3 := ExecOne(x1, t[2], picks[2]);
    DespawnStep(x1, EnemySpawner.WarningSlot);
    assert t[3..] == tail;
    EnemyTail(x3, r, picks[3..]);
  }

  /**
   A spawn request of the wave director's loop asks for a single enemy of
   the type its draw chose, one unlocked at the current wave. The spawner
   starts exactly one routine for it when it has spawn areas and none
   otherwise. That routine, carried out on valid pools, announces
   exactly one enemy: an active instance of the requested prefab's pool.
   */
  lemma DirectorBatchAnnouncesOneEnemy(cfg: HordeManager.HordeConfig, h: HordeManager.Horde, roll: nat,
                                       f: HordeManager.Effect, areaCount: nat, samples: nat -> EnemySpawner.Sample,
                                       p: PoolManager.Pools, warningPrefab: Option<Template>, dur: real, picks: seq<Instance>)
    requires f in HordeManager.SpawnLoopPass(cfg, h, roll).effects
    ensures f.SpawnBatch? && f.count == 1
    ensures f.SpawnBatch? ==>
      && HordeManager.GetRandomEnemyPrefab(cfg.enemyTypes, h.currentWave, roll) == Some(f.prefab)
      && exists e | e in cfg.enemyTypes :: h.currentWave >= e.minDifficultyToSpawn && e.prefab == Some(f.prefab)
    ensures f.SpawnBatch? ==>
      var rs := EnemySpawner.SpawnBatch(areaCount, Some(f.prefab), f.count, samples);
      && |rs| == (if areaCount > 0 then 1 else 0)
      && (areaCount > 0 && PoolManager.Valid(p)
          && FitsAll(Exec(p, map[], []), EnemySpawner.RoutineTrace(warningPrefab, dur, rs[0]), picks) ==>
            var x := ExecAll(Exec(p, map[], []), EnemySpawner.RoutineTrace(warningPrefab, dur, rs[0]), picks);
            var e := SlotRef(x, EnemySpawner.EnemySlot);
            && x.notified == [e]
            && e.Obj? && e.id in x.pools.active && e.id in x.pools.route && x.pools.route[e.id] == f.prefab)
  {
    var rs := EnemySpawner.SpawnBatch(areaCount, Some(f.prefab), f.count, samples);
    if areaCount > 0 && PoolManager.Valid(p)
       && FitsAll(Exec(p, map[], []), EnemySpawner.RoutineTrace(warningPrefab, dur, rs[0]), picks) {
      RoutineAnnouncesItsEnemy(p, warningPrefab, dur, rs[0], picks);
    }
  }

  // ---------------------------------------------------------------------------
  // Enemy deaths reaching the director

  /** The director's side of an enemy's death requests: one death event per `Died`. */
  function ToDirector(evs: seq<EnemyController.DeathEvent>, env: HordeManager.Env): seq<HordeManager.Event>
  {
    if evs == [] then []
    else (if evs[0] == EnemyController.Died then [HordeManager.EnemyDied(env)] else []) + ToDirector(evs[1..], env)
  }

  lemma {:induction false} DeathsConcat(a: seq<HordeManager.Event>, b: seq<HordeManager.Event>)
    ensures HordeManager.Deaths(a + b) == HordeManager.Deaths(a) + HordeManager.Deaths(b)
  {
    if a != [] {
      assert (a + b)[1..] == a[1..] + b;
      DeathsConcat(a[1..], b);
    } else {
      assert a + b == b;
    }
  }

  lemma {:induction false} ToDirectorDeaths(evs: seq<EnemyController.DeathEvent>, env: HordeManager.Env)
    ensures HordeManager.Deaths(ToDirector(evs, env)) == Count(evs, EnemyController.Died)
  {
    if evs != [] {
      var head := if evs[0] == EnemyController.Died then [HordeManager.EnemyDied(env)] else [];
      DeathsConcat(head, ToDirector(evs[1..], env));
      ToDirectorDeaths(evs[1..], env);
      if head != [] { assert head[1..] == []; }
    }
  }

  /**
   However many hits an enemy takes within one activation, the director
   counts at most one death for it: alive falls by one exactly when the hits
   were lethal, and the wave neither changes nor ends while others are alive.
   */
  lemma HitsCostAtMostOneLife(cfg: HordeManager.HordeConfig, h: HordeManager.Horde,
                              e: EnemyController.Enemy, amounts: seq<int>, env: HordeManager.Env)
    requires h.state == HordeManager.Spawning || h.state == HordeManager.Fighting
    requires h.enemiesAlive > 1
    requires !e.isDead
    ensures var d := HordeManager.Run(cfg, h, ToDirector(EnemyController.TakeDamages(e, amounts).events, env));
      && d.enemiesAlive == h.enemiesAlive - (if EnemyController.Lethal(e.currentHealth, amounts) then 1 else 0)
      && d.currentWave == h.currentWave
      && (d.state == HordeManager.Spawning || d.state == HordeManager.Fighting)
  {
    var evs := EnemyController.TakeDamages(e, amounts).events;
    EnemyController.DiesAtMostOnce(e, amounts);
    ToDirectorDeaths(evs, env);
    HordeManager.AliveFallsOnlyByDeaths(cfg, h, ToDirector(evs, env));
  }

  /** Two hits that are each lethal on their own cost the wave exactly one enemy. */
  lemma TwoLethalHitsOneDeath(cfg: HordeManager.HordeConfig, h: HordeManager.Horde,
                              e: EnemyController.Enemy, a1: int, a2: int, env: HordeManager.Env)
    requires h.state == HordeManager.Spawning || h.state == HordeManager.Fighting
    requires h.enemiesAlive > 1
    requires !e.isDead && a1 >= e.currentHealth && a2 >= e.currentHealth
    ensures HordeManager.Run(cfg, h, ToDirector(EnemyController.TakeDamages(e, [a1, a2]).events, env)).enemiesAlive
         == h.enemiesAlive - 1
  {
    assert [a1, a2][..1] == [a1];
    assert EnemyController.Sum([a1]) == a1;
    assert EnemyController.Lethal(e.currentHealth, [a1, a2]);
    HitsCostAtMostOneLife(cfg, h, e, [a1, a2], env);
  }

  // ---------------------------------------------------------------------------
  // Melee slashes

  /**
   A melee attack instantiates its slash outside the pools. When the slash
   prefab carries the projectile component, its initialisation schedules
   the 5-second lifetime despawn. A slash that touches no enemy stays live
   until then, and the lifetime despawn destroys it instead of pooling it.
   */
  lemma SlashIsDestroyedAfterItsLifetime(p: PoolManager.Pools, w: Weapons.Weapon, now: real)
    requires PoolManager.Valid(p)
    requires w.kind == Weapons.Melee && w.data.prefab.Some? && FireGate.Open(w.nextFireTime, now)
    ensures Weapons.TryAttack(w, now).attack.Slash?
    ensures
      var a := Weapons.TryAttack(w, now).attack;
      var s := PoolManager.Instantiate(p);
      var life := PlayerProjectile.Initialize(a.init.damage, a.init.speed, a.init.explosive, a.init.radius).1;
      var q := PoolManager.DespawnAfter(s.pools, s.inst, life[0].delay, now);
      var f := PoolManager.FireTimer(q, |q.timers| - 1, now + 5.0);
      && life == [PlayerProjectile.DespawnSelfAfter(5.0)]
      && !PoolManager.IsNull(q, s.inst) && s.inst.id in q.active
      && s.inst.id in f.destroyed && s.inst.id !in f.active
      && s.inst.id !in f.route && f.idle == p.idle
  {
  }

  /**
   A slash's first contact with an enemy ends it: the plain hit deals the
   weapon's truncated damage to that enemy (if the collider has one) and
   despawns the slash, which is marked for destruction because no pool owns
   it. The engine carries that out at the end of the frame, so a second
   enemy touched in the same physics step is still hit for the same damage;
   the despawn that hit requests changes nothing more. The lifetime timer,
   when it comes due later, finds a destroyed object and only drops out of
   the pending list.
   */
  lemma SlashIsDestroyedByItsFirstHit(p: PoolManager.Pools, w: Weapons.Weapon, now: real,
                                      other: Collider, second: Collider, blast: seq<Collider>, later: real)
    requires PoolManager.Valid(p)
    requires w.kind == Weapons.Melee && w.data.prefab.Some? && FireGate.Open(w.nextFireTime, now)
    requires other.tag == EnemyTag && second.tag == EnemyTag && later >= now + 5.0
    ensures
      var a := Weapons.TryAttack(w, now).attack;
      var s := PoolManager.Instantiate(p);
      var slash := PlayerProjectile.Initialize(a.init.damage, a.init.speed, a.init.explosive, a.init.radius).0;
      var q := PoolManager.DespawnAfter(s.pools, s.inst, 5.0, now);
      var d := PoolManager.Despawn(q, s.inst);
      && PlayerProjectile.OnTriggerEnter(slash, other, blast)
         == (if other.enemy.Some? then [PlayerProjectile.EnemyDamaged(other.enemy.value, Truncate(w.data.damage))] else [])
            + [PlayerProjectile.DespawnSelf]
      && PlayerProjectile.OnTriggerEnter(slash, second, blast)
         == (if second.enemy.Some? then [PlayerProjectile.EnemyDamaged(second.enemy.value, Truncate(w.data.damage))] else [])
            + [PlayerProjectile.DespawnSelf]
      && PoolManager.IsNull(d, s.inst) && s.inst.id in d.destroyed && d.idle == p.idle
      && PoolManager.Despawn(d, s.inst) == d
      && |d.timers| >= 1 && d.timers[|d.timers| - 1].due <= later
      && PoolManager.FireTimer(d, |d.timers| - 1, later) == d.(timers := d.timers[..|d.timers| - 1])
  {
    var s := PoolManager.Instantiate(p);
    var q := PoolManager.DespawnAfter(s.pools, s.inst, 5.0, now);
    var d := PoolManager.Despawn(q, s.inst);
    assert d.timers == q.timers;
    assert d.timers[..|d.timers| - 1] + d.timers[|d.timers|..] == d.timers[..|d.timers| - 1];
  }
}
