/**
 The wave director: a four-state machine (waiting, spawning, fighting,
 calm) over four integer counters, driven by wave starts, passes of the
 wave-spawn coroutine, enemy deaths and upgrade picks.

 Engine plumbing becomes explicit data. Every call the director makes into
 another component (spawner, pool, events, destroying pickups) is an
 `Effect` in the order it happens. Random draws, the scene search for stray
 enemy projectiles, and the wave-size formula are inputs. A coroutine runs
 synchronously up to its first wait when it is started, and a suspended
 wave-spawn coroutine resumes only through an explicit `Resume` event; the
 director counts its suspended coroutines in `spawnLoops`.
 */
module HordeManager {
  import opened Common

  datatype HordeState = WaitingToStart | Spawning | Fighting | CalmPhase

  /** One row of the enemy table; `spawnChance` is configured but never read. */
  datatype EnemyType = EnemyType(name: string, prefab: Option<Template>, spawnChance: real, minDifficultyToSpawn: int)

  datatype HordeConfig = HordeConfig(
    enemyTypes: seq<EnemyType>,
    waveSize: int -> nat,     // enemies in wave n; the floating-point formula is not modelled
    upgradeCount: nat,        // length of the available-upgrades list
    hasPickupPrefab: bool,    // whether the upgrade pickup prefab is set
    spawnPointCount: nat)     // number of upgrade spawn points

  /** An offered upgrade: the spawn point it stands on and the index of the upgrade it carries. */
  datatype Pickup = Pickup(point: nat, upgrade: nat)

  datatype Horde = Horde(
    state: HordeState,
    currentWave: int,
    enemiesToSpawnTotal: int,
    enemiesSpawnedSoFar: int,
    enemiesAlive: int,
    activePickups: seq<Pickup>,
    spawnLoops: nat)          // wave-spawn coroutines suspended at their wait

  /**
   What the engine supplies to one step: the draw for the enemy type, the
   draws for the upgrades (the i-th offered pickup uses `upgradeRoll(i)`),
   and the enemy projectiles the scene search finds.
   */
  datatype Env = Env(enemyRoll: nat, upgradeRoll: nat -> nat, strayProjectiles: seq<Instance>)

  datatype Effect =
    | WaveStarted(wave: int)
    | SpawnBatch(prefab: Template, count: int)
    | DespawnProjectile(inst: Instance)
    | WaveEnded
    | CalmPhaseStarted
    | PickupCreated(pickup: Pickup)
    | PickupDestroyed(pickup: Pickup)

  datatype Step = Step(horde: Horde, effects: seq<Effect>)

  /** The director as the scene starts it. */
  function Initial(): (h: Horde)
    ensures Inv(h)
  {
    Horde(WaitingToStart, 0, 0, 0, 0, [], 0)
  }

  // ---------------------------------------------------------------------------
  // Enemy selection

  /** The enemy types unlocked at `wave`, in table order. */
  function Eligible(types: seq<EnemyType>, wave: int): (v: seq<EnemyType>)
    ensures forall e :: e in v <==> e in types && wave >= e.minDifficultyToSpawn
    ensures |v| <= |types|
  {
    if types == [] then []
    else (if wave >= types[0].minDifficultyToSpawn then [types[0]] else []) + Eligible(types[1..], wave)
  }

  /**
   The prefab of a uniformly drawn unlocked type, or null when the table is
   empty or nothing is unlocked yet.
   */
  function GetRandomEnemyPrefab(types: seq<EnemyType>, wave: int, roll: nat): (r: Option<Template>)
    ensures (forall e | e in types :: wave < e.minDifficultyToSpawn) ==> r == None
    ensures (exists e | e in types :: wave >= e.minDifficultyToSpawn) ==>
      exists e | e in types :: wave >= e.minDifficultyToSpawn && r == e.prefab
  {
    if |types| == 0 then None
    else
      var valid := Eligible(types, wave);
      if |valid| == 0 then None
      else
        var e := valid[Draw(roll, |valid|)];
        assert e in valid;
        e.prefab
  }

  /** Every unlocked type is drawn by some roll: the draw ranges over all of them. */
  lemma EveryEligibleTypeCanBeDrawn(types: seq<EnemyType>, wave: int, e: EnemyType)
    requires e in types && wave >= e.minDifficultyToSpawn
    ensures exists roll: nat :: GetRandomEnemyPrefab(types, wave, roll) == e.prefab
  {
    var valid := Eligible(types, wave);
    assert e in valid;
    var i :| 0 <= i < |valid| && valid[i] == e;
    DrawReachesEveryIndex(|valid|, i);
    assert GetRandomEnemyPrefab(types, wave, i) == valid[Draw(i, |valid|)].prefab;
  }

  /** Two tables that differ only in spawn chances. */
  predicate SameButChance(a: seq<EnemyType>, b: seq<EnemyType>)
  {
    |a| == |b| && forall i | 0 <= i < |a| :: a[i].(spawnChance := 0.0) == b[i].(spawnChance := 0.0)
  }

  lemma SameButChanceConcat(a1: seq<EnemyType>, a2: seq<EnemyType>, b1: seq<EnemyType>, b2: seq<EnemyType>)
    requires SameButChance(a1, b1) && SameButChance(a2, b2)
    ensures SameButChance(a1 + a2, b1 + b2)
  {
    forall i | 0 <= i < |a1 + a2|
      ensures (a1 + a2)[i].(spawnChance := 0.0) == (b1 + b2)[i].(spawnChance := 0.0)
    {
      if i < |a1| {
        assert (a1 + a2)[i] == a1[i] && (b1 + b2)[i] == b1[i];
      } else {
        assert (a1 + a2)[i] == a2[i - |a1|] && (b1 + b2)[i] == b2[i - |a1|];
      }
    }
  }

  lemma {:induction false} EligibleIgnoresChance(a: seq<EnemyType>, b: seq<EnemyType>, wave: int)
    requires SameButChance(a, b)
    ensures SameButChance(Eligible(a, wave), Eligible(b, wave))
  {
    if a != [] {
      assert a[0].(spawnChance := 0.0) == b[0].(spawnChance := 0.0);
      assert a[0].minDifficultyToSpawn == b[0].minDifficultyToSpawn;
      var ha := if wave >= a[0].minDifficultyToSpawn then [a[0]] else [];
      var hb := if wave >= b[0].minDifficultyToSpawn then [b[0]] else [];
      assert SameButChance(ha, hb);
      assert SameButChance(a[1..], b[1..]) by {
        forall i | 0 <= i < |a| - 1
          ensures a[1..][i].(spawnChance := 0.0) == b[1..][i].(spawnChance := 0.0)
        {
          assert a[1..][i] == a[i + 1];
          assert b[1..][i] == b[i + 1];
        }
      }
      EligibleIgnoresChance(a[1..], b[1..], wave);
      SameButChanceConcat(ha, Eligible(a[1..], wave), hb, Eligible(b[1..], wave));
    }
  }

  /** Selection never reads `spawnChance`: changing the chances changes no draw. */
  lemma SpawnChanceIsNeverRead(a: seq<EnemyType>, b: seq<EnemyType>, wave: int, roll: nat)
    requires SameButChance(a, b)
    ensures GetRandomEnemyPrefab(a, wave, roll) == GetRandomEnemyPrefab(b, wave, roll)
  {
    EligibleIgnoresChance(a, b, wave);
    var va := Eligible(a, wave);
    var vb := Eligible(b, wave);
    if |va| > 0 {
      var k := Draw(roll, |va|);
      assert va[k].(spawnChance := 0.0) == vb[k].(spawnChance := 0.0);
      assert va[k].prefab == vb[k].prefab;
    }
  }

  // ---------------------------------------------------------------------------
  // The wave-spawn coroutine

  /** One pass of the wave-spawn coroutine: from its loop test to its next wait (`suspended`) or to its end. */
  datatype LoopPass = LoopPass(horde: Horde, effects: seq<Effect>, suspended: bool)

  function SpawnLoopPass(cfg: HordeConfig, h: Horde, roll: nat): (r: LoopPass)
    // the loop runs only while spawned < total, and then not in the calm phase
    ensures r.suspended <==> h.enemiesSpawnedSoFar < h.enemiesToSpawnTotal && h.state != CalmPhase
    // a running pass counts one slot, whether or not a prefab was available
    ensures r.suspended ==>
      && r.horde == h.(enemiesSpawnedSoFar := h.enemiesSpawnedSoFar + 1)
      && |r.effects| <= 1
      && (r.effects == [] <==> GetRandomEnemyPrefab(cfg.enemyTypes, h.currentWave, roll).None?)
      && (forall f | f in r.effects :: f.SpawnBatch? && f.count == 1)
      // the batch asks for exactly the type the eligible-type draw chose
      && (forall f | f in r.effects ::
            GetRandomEnemyPrefab(cfg.enemyTypes, h.currentWave, roll).Some?
            && f.prefab == GetRandomEnemyPrefab(cfg.enemyTypes, h.currentWave, roll).value)
    // the calm phase stops the loop without spawning
    ensures h.enemiesSpawnedSoFar < h.enemiesToSpawnTotal && h.state == CalmPhase ==> r == LoopPass(h, [], false)
    // a finished loop writes Fighting whatever the state was
    ensures h.enemiesSpawnedSoFar >= h.enemiesToSpawnTotal ==> r == LoopPass(h.(state := Fighting), [], false)
  {
    if h.enemiesSpawnedSoFar < h.enemiesToSpawnTotal then
      if h.state == CalmPhase then LoopPass(h, [], false)
      else
        var prefab := GetRandomEnemyPrefab(cfg.enemyTypes, h.currentWave, roll);
        var fx := if prefab.Some? then [SpawnBatch(prefab.value, 1)] else [];
        LoopPass(h.(enemiesSpawnedSoFar := h.enemiesSpawnedSoFar + 1), fx, true)
    else
      LoopPass(h.(state := Fighting), [], false)
  }

  /** Run a pass and keep the coroutine counted if it suspended again. */
  function AfterPass(pass: LoopPass): Horde
  {
    pass.horde.(spawnLoops := pass.horde.spawnLoops + (if pass.suspended then 1 else 0))
  }

  /** A suspended wave-spawn coroutine wakes up after its wait and runs one pass. */
  function Resume(cfg: HordeConfig, h: Horde, env: Env): (r: Step)
    ensures h.spawnLoops == 0 ==> r == Step(h, [])
    ensures h.spawnLoops > 0 ==>
      && r.horde.currentWave == h.currentWave
      && r.horde.enemiesAlive == h.enemiesAlive
      && r.horde.enemiesToSpawnTotal == h.enemiesToSpawnTotal
      && r.horde.activePickups == h.activePickups
      && h.enemiesSpawnedSoFar <= r.horde.enemiesSpawnedSoFar <= h.enemiesSpawnedSoFar + 1
  {
    if h.spawnLoops == 0 then Step(h, [])
    else
      var pass := SpawnLoopPass(cfg, h.(spawnLoops := h.spawnLoops - 1), env.enemyRoll);
      Step(AfterPass(pass), pass.effects)
  }

  // ---------------------------------------------------------------------------
  // Wave start

  /** The counter reset of a proceeding wave start, before its coroutine runs. */
  function WaveReset(cfg: HordeConfig, h: Horde): (r: Horde)
    ensures r.currentWave == h.currentWave + 1
    ensures r.state == Spawning
    ensures r.enemiesSpawnedSoFar == 0
    ensures r.enemiesToSpawnTotal == cfg.waveSize(r.currentWave) && r.enemiesAlive == r.enemiesToSpawnTotal
    ensures r.activePickups == h.activePickups && r.spawnLoops == h.spawnLoops
  {
    var wave := h.currentWave + 1;
    var total := cfg.waveSize(wave);
    h.(currentWave := wave, state := Spawning, enemiesToSpawnTotal := total, enemiesSpawnedSoFar := 0,
       enemiesAlive := total)
  }

  /**
   Start the next wave: ignored while spawning or fighting; otherwise reset
   the counters, announce the wave, and start the wave-spawn coroutine,
   whose first pass runs at once.
   */
  function StartNextWave(cfg: HordeConfig, h: Horde, env: Env): (r: Step)
    ensures h.state == Spawning || h.state == Fighting ==> r == Step(h, [])
    ensures h.state == WaitingToStart || h.state == CalmPhase ==>
      var total := cfg.waveSize(h.currentWave + 1);
      && r.horde.currentWave == h.currentWave + 1
      && r.horde.enemiesToSpawnTotal == total
      && r.horde.enemiesAlive == total
      && r.horde.enemiesSpawnedSoFar == (if total > 0 then 1 else 0)
      && r.horde.state == (if total > 0 then Spawning else Fighting)
      && r.horde.spawnLoops == h.spawnLoops + (if total > 0 then 1 else 0)
      && r.horde.activePickups == h.activePickups
      && |r.effects| >= 1 && r.effects[0] == WaveStarted(h.currentWave + 1)
      && (forall f | f in r.effects[1..] :: f.SpawnBatch?)
  {
    if h.state == Spawning || h.state == Fighting then Step(h, [])
    else
      var h1 := WaveReset(cfg, h);
      var pass := SpawnLoopPass(cfg, h1, env.enemyRoll);
      Step(AfterPass(pass), [WaveStarted(h1.currentWave)] + pass.effects)
  }

  // ---------------------------------------------------------------------------
  // Calm phase and upgrades

  /** Destroy every offered pickup and forget them. */
  function ClearPickups(h: Horde): (r: Step)
    ensures r.horde == h.(activePickups := [])
    ensures |r.effects| == |h.activePickups|
    ensures forall i | 0 <= i < |r.effects| :: r.effects[i] == PickupDestroyed(h.activePickups[i])
  {
    Step(h.(activePickups := []), seq(|h.activePickups|, i requires 0 <= i < |h.activePickups| =>
      PickupDestroyed(h.activePickups[i])))
  }

  /** How many pickups a calm phase offers: up to three, bounded by the upgrades and the spawn points. */
  function OfferCount(cfg: HordeConfig): (n: nat)
    ensures n <= 3 && n <= cfg.upgradeCount && n <= cfg.spawnPointCount
    ensures n == 3 || n == cfg.upgradeCount || n == cfg.spawnPointCount
  {
    var count := if cfg.upgradeCount < 3 then cfg.upgradeCount else 3;
    if count < cfg.spawnPointCount then count else cfg.spawnPointCount
  }

  /** The offered pickups: the i-th stands on spawn point i and carries a drawn upgrade. */
  function Offers(cfg: HordeConfig, env: Env): (ps: seq<Pickup>)
    requires cfg.upgradeCount > 0
    ensures |ps| == OfferCount(cfg) && |ps| <= 3
    ensures |ps| <= cfg.upgradeCount && |ps| <= cfg.spawnPointCount
    ensures forall i | 0 <= i < |ps| :: ps[i].point == i && ps[i].upgrade < cfg.upgradeCount
  {
    var ps := seq(OfferCount(cfg), i requires 0 <= i => Pickup(i, Draw(env.upgradeRoll(i), cfg.upgradeCount)));
    assert forall i | 0 <= i < |ps| :: ps[i] == Pickup(i, Draw(env.upgradeRoll(i), cfg.upgradeCount));
    ps
  }

  /**
   Offer upgrades: clear old pickups, then either start the next wave at
   once (no pickup prefab or no upgrades) or place the offered pickups.
   */
  function SpawnUpgrades(cfg: HordeConfig, h: Horde, env: Env): (r: Step)
    // the old pickups are destroyed first
    ensures |r.effects| >= |h.activePickups|
    ensures r.effects[..|h.activePickups|] == ClearPickups(h).effects
    // fallback: the next wave starts at once, from a state without pickups
    ensures !cfg.hasPickupPrefab || cfg.upgradeCount == 0 ==>
      && r.horde == StartNextWave(cfg, h.(activePickups := []), env).horde
      && r.effects[|h.activePickups|..] == StartNextWave(cfg, h.(activePickups := []), env).effects
    // otherwise the offered pickups are placed and announced, in order, and nothing else changes
    ensures cfg.hasPickupPrefab && cfg.upgradeCount > 0 ==>
      && r.horde == h.(activePickups := Offers(cfg, env))
      && |r.horde.activePickups| == OfferCount(cfg)
      && |r.effects| == |h.activePickups| + |r.horde.activePickups|
      && (forall i | 0 <= i < |r.horde.activePickups| ::
            r.effects[|h.activePickups| + i] == PickupCreated(r.horde.activePickups[i]))
  {
    var cleared := ClearPickups(h);
    if !cfg.hasPickupPrefab || cfg.upgradeCount == 0 then
      var s := StartNextWave(cfg, cleared.horde, env);
      assert (cleared.effects + s.effects)[..|h.activePickups|] == cleared.effects;
      Step(s.horde, cleared.effects + s.effects)
    else
      var offers := Offers(cfg, env);
      var created := seq(|offers|, i requires 0 <= i < |offers| => PickupCreated(offers[i]));
      Step(cleared.horde.(activePickups := offers), cleared.effects + created)
  }

  /** The despawn requests of the stray-projectile sweep, one per projectile found. */
  function Sweep(found: seq<Instance>): (fx: seq<Effect>)
    ensures |fx| == |found|
    ensures forall i | 0 <= i < |found| :: fx[i] == DespawnProjectile(found[i])
  {
    seq(|found|, i requires 0 <= i < |found| => DespawnProjectile(found[i]))
  }

  /** End the wave: enter the calm phase, sweep stray projectiles, announce, and offer upgrades. */
  function EndWave(cfg: HordeConfig, h: Horde, env: Env): (r: Step)
    // the sweep, then the two announcements, then the upgrade offer's own effects
    ensures |r.effects| >= |env.strayProjectiles| + 2
    ensures r.effects[..|env.strayProjectiles|] == Sweep(env.strayProjectiles)
    ensures r.effects[|env.strayProjectiles|..|env.strayProjectiles| + 2] == [WaveEnded, CalmPhaseStarted]
    ensures r.effects[|env.strayProjectiles| + 2..] == SpawnUpgrades(cfg, h.(state := CalmPhase), env).effects
    // with a pickup prefab and upgrades: calm phase, counters kept, min(3, upgrades, spawn points) pickups offered
    ensures cfg.hasPickupPrefab && cfg.upgradeCount > 0 ==>
      && r.horde == h.(state := CalmPhase, activePickups := Offers(cfg, env))
      && |r.horde.activePickups| == OfferCount(cfg)
      && |r.horde.activePickups| <= 3
      && |r.horde.activePickups| <= cfg.upgradeCount && |r.horde.activePickups| <= cfg.spawnPointCount
    // otherwise the next wave has already started
    ensures !cfg.hasPickupPrefab || cfg.upgradeCount == 0 ==>
      r.horde.currentWave == h.currentWave + 1 && r.horde.activePickups == []
  {
    var calm := h.(state := CalmPhase);
    var up := SpawnUpgrades(cfg, calm, env);
    var fx := Sweep(env.strayProjectiles) + [WaveEnded, CalmPhaseStarted] + up.effects;
    assert fx[..|env.strayProjectiles|] == Sweep(env.strayProjectiles);
    assert fx[|env.strayProjectiles| + 2..] == up.effects;
    Step(up.horde, fx)
  }

  /**
   An enemy died: ignored in the calm phase; otherwise one fewer alive, and
   the wave ends exactly when none is left alive and every slot was spawned.
   */
  function HandleEnemyDeath(cfg: HordeConfig, h: Horde, env: Env): (r: Step)
    ensures h.state == CalmPhase ==> r == Step(h, [])
    ensures h.state != CalmPhase && !(h.enemiesAlive - 1 <= 0 && h.enemiesSpawnedSoFar >= h.enemiesToSpawnTotal) ==>
      r == Step(h.(enemiesAlive := h.enemiesAlive - 1), [])
    ensures h.state != CalmPhase && h.enemiesAlive - 1 <= 0 && h.enemiesSpawnedSoFar >= h.enemiesToSpawnTotal ==>
      r == EndWave(cfg, h.(enemiesAlive := h.enemiesAlive - 1), env) && WaveEnded in r.effects
  {
    if h.state == CalmPhase then Step(h, [])
    else
      var h1 := h.(enemiesAlive := h.enemiesAlive - 1);
      if h1.enemiesAlive <= 0 && h1.enemiesSpawnedSoFar >= h1.enemiesToSpawnTotal then
        var r := EndWave(cfg, h1, env);
        assert r.effects[|env.strayProjectiles|] == WaveEnded;
        r
      else Step(h1, [])
  }

  /**
   The player took an upgrade. Outside the calm phase nothing happens.
   Inside it, the upgrade's name is read for a log line first, so a pickup
   with no upgrade raises a null-reference exception (`None`) before
   anything changes; otherwise every pickup is destroyed and the next wave
   starts.
   */
  function OnUpgradePicked(cfg: HordeConfig, h: Horde, upgradeIsNull: bool, env: Env): (r: Option<Step>)
    ensures h.state != CalmPhase ==> r == Some(Step(h, []))
    ensures h.state == CalmPhase && upgradeIsNull ==> r == None
    ensures h.state == CalmPhase && !upgradeIsNull ==>
      && r.Some?
      && |r.value.effects| > |h.activePickups|
      && r.value.horde.activePickups == []
      && r.value.horde.currentWave == h.currentWave + 1
      && r.value.horde.state != CalmPhase
      && r.value.effects[..|h.activePickups|] == ClearPickups(h).effects
      && r.value.effects[|h.activePickups|] == WaveStarted(h.currentWave + 1)
  {
    if h.state != CalmPhase then Some(Step(h, []))
    else if upgradeIsNull then None
    else
      var cleared := ClearPickups(h);
      var s := StartNextWave(cfg, cleared.horde, env);
      var fx := cleared.effects + s.effects;
      assert fx[..|h.activePickups|] == cleared.effects;
      Some(Step(s.horde, fx))
  }

  // ---------------------------------------------------------------------------
  // Runs of events and their invariants

  datatype Event =
    | StartWave(env: Env)                          // the first-wave timer, or any other caller
    | ResumeLoop(env: Env)                         // a wave-spawn coroutine's wait is over
    | EnemyDied(env: Env)                          // an enemy's death event
    | UpgradePicked(upgradeIsNull: bool, env: Env) // a pickup notified the director

  function Apply(cfg: HordeConfig, h: Horde, ev: Event): Horde
  {
    match ev
    case StartWave(env) => StartNextWave(cfg, h, env).horde
    case ResumeLoop(env) => Resume(cfg, h, env).horde
    case EnemyDied(env) => HandleEnemyDeath(cfg, h, env).horde
    case UpgradePicked(isNull, env) =>
      match OnUpgradePicked(cfg, h, isNull, env)
      case Some(s) => s.horde
      case None => h
  }

  function Run(cfg: HordeConfig, h: Horde, evs: seq<Event>): Horde
    decreases evs
  {
    if evs == [] then h else Run(cfg, Apply(cfg, h, evs[0]), evs[1..])
  }

  /**
   The counter invariant: 0 <= spawned <= total; once fighting or calm every
   slot was spawned; the calm phase has nobody alive; a spawning wave has a
   coroutine to continue it; at most three pickups are offered.
   */
  ghost predicate Inv(h: Horde)
  {
    && 0 <= h.enemiesSpawnedSoFar <= h.enemiesToSpawnTotal
    && (h.state == Fighting || h.state == CalmPhase ==> h.enemiesSpawnedSoFar == h.enemiesToSpawnTotal)
    && (h.state == CalmPhase ==> h.enemiesAlive <= 0)
    && (h.state == Spawning ==> h.spawnLoops >= 1)
    && |h.activePickups| <= 3
  }

  lemma StartNextWaveKeepsInv(cfg: HordeConfig, h: Horde, env: Env)
    requires Inv(h)
    ensures Inv(StartNextWave(cfg, h, env).horde)
  {
  }

  lemma HandleEnemyDeathKeepsInv(cfg: HordeConfig, h: Horde, env: Env)
    requires Inv(h)
    ensures Inv(HandleEnemyDeath(cfg, h, env).horde)
  {
    if h.state != CalmPhase {
      var h1 := h.(enemiesAlive := h.enemiesAlive - 1);
      if h1.enemiesAlive <= 0 && h1.enemiesSpawnedSoFar >= h1.enemiesToSpawnTotal {
        var calm := h1.(state := CalmPhase);
        if !cfg.hasPickupPrefab || cfg.upgradeCount == 0 {
          StartNextWaveKeepsInv(cfg, calm.(activePickups := []), env);
        }
      }
    }
  }

  lemma ApplyKeepsInv(cfg: HordeConfig, h: Horde, ev: Event)
    requires Inv(h)
    ensures Inv(Apply(cfg, h, ev))
    ensures h.currentWave <= Apply(cfg, h, ev).currentWave <= h.currentWave + 1
  {
    match ev
    case StartWave(env) => StartNextWaveKeepsInv(cfg, h, env);
    case ResumeLoop(env) =>
    case EnemyDied(env) => HandleEnemyDeathKeepsInv(cfg, h, env);
    case UpgradePicked(isNull, env) =>
      if h.state == CalmPhase && !isNull {
        StartNextWaveKeepsInv(cfg, h.(activePickups := []), env);
      }
  }

  /**
   Every run of events from an invariant state keeps the invariant, and the
   wave number never falls and rises by at most one per event.
   */
  lemma {:induction false} RunKeepsInv(cfg: HordeConfig, h: Horde, evs: seq<Event>)
    requires Inv(h)
    ensures Inv(Run(cfg, h, evs))
    ensures h.currentWave <= Run(cfg, h, evs).currentWave <= h.currentWave + |evs|
    decreases evs
  {
    if evs != [] {
      ApplyKeepsInv(cfg, h, evs[0]);
      RunKeepsInv(cfg, Apply(cfg, h, evs[0]), evs[1..]);
    }
  }

  /** Number of death events in a run. */
  function Deaths(evs: seq<Event>): nat
  {
    if evs == [] then 0 else (if evs[0].EnemyDied? then 1 else 0) + Deaths(evs[1..])
  }

  /**
   Within a wave, `enemiesAlive` falls only by deaths: a run of events from
   a spawning or fighting state that delivers fewer deaths than there are
   enemies counted alive stays in the same wave, never reaches the calm
   phase, and ends with exactly `alive - deaths` alive. Since a wave starts
   with every slot counted alive, a slot whose spawn produced no enemy keeps
   the wave from ever ending through the deaths of the enemies that exist.
   */
  lemma {:induction false} AliveFallsOnlyByDeaths(cfg: HordeConfig, h: Horde, evs: seq<Event>)
    requires h.state == Spawning || h.state == Fighting
    requires h.enemiesAlive > Deaths(evs)
    ensures var e := Run(cfg, h, evs);
      && (e.state == Spawning || e.state == Fighting)
      && e.currentWave == h.currentWave
      && e.enemiesToSpawnTotal == h.enemiesToSpawnTotal
      && e.enemiesAlive == h.enemiesAlive - Deaths(evs)
    decreases evs
  {
    if evs != [] {
      var h1 := Apply(cfg, h, evs[0]);
      assert h1.enemiesAlive == h.enemiesAlive - (if evs[0].EnemyDied? then 1 else 0);
      AliveFallsOnlyByDeaths(cfg, h1, evs[1..]);
    }
  }

  /**
   A wave-spawn coroutine still suspended when its wave ends writes Fighting
   over the calm phase when it wakes, leaving the offered pickups in place;
   an upgrade pick is then ignored.
   */
  lemma StaleLoopOverwritesCalmPhase(cfg: HordeConfig, h: Horde, env: Env, isNull: bool)
    requires Inv(h) && h.state == CalmPhase && h.spawnLoops > 0
    ensures var r := Resume(cfg, h, env).horde;
      && r.state == Fighting
      && r.activePickups == h.activePickups
      && OnUpgradePicked(cfg, r, isNull, env) == Some(Step(r, []))
  {
  }
}
