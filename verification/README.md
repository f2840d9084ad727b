# Wave-survival game core, modelled in Dafny

This project models the bookkeeping at the centre of a small 2D wave-survival
("roguelike") game. The game is written in C# for the Unity engine. The model covers:

- **Wave director** (`HordeManager`). A four-state machine: waiting to start, spawning, fighting, calm phase. It keeps four integer counters:
  - the current wave;
  - the enemies to spawn;
  - the enemies spawned so far;
  - the enemies alive.

  It picks enemy types by unlock level, ends a wave when the last enemy dies, and offers upgrade pickups during the calm phase.
- **Enemies** (`EnemyController`). Health is reset on every activation from the pool. Per-frame behaviour depends on the kind (chaser, kiter, turret). Shooting goes through a fire-rate gate. Death happens once per activation, and body contact damages the player.
- **Player health** (`PlayerController`). Damage and healing are clamped into `[0, maxHealth]`, with health-changed and death notifications.
- **Object pools** (`PoolManager`). One pool per prefab, created on first use. A map routes each instance to its pool. Despawning an idle instance does nothing, and despawning an object the pools never made destroys it. A delayed despawn is a suspended timer.
- **Enemy spawner** (`EnemySpawner`). A batch starts one coroutine per enemy. Each coroutine shows a warning, waits, removes the warning, spawns the enemy at the same point and announces it. The coroutine is modelled as the trace of requests it makes.
- **Weapons** (`Weapons`):
  - weapon behaviours with a fire-rate gate;
  - ranged bursts of pooled projectiles;
  - melee slashes that are instantiated rather than pooled;
  - the weapon controller, which keeps an append-only list of weapons and fires them every frame except during the calm phase.
- **Projectiles** (`PlayerProjectile`, `EnemyProjectile`). The hit outcome of each, as a pure function from the collider that was touched to the requests made: damage to apply and despawns.
- **Upgrade pickup** (`UpgradePickup`). It grants the weapon, tells the director, and disables its collider.
- **`Game`**. Statements across components:
  - a spawn routine's trace carried out against the pools;
  - an enemy's death events delivered to the director;
  - the life of a melee slash.

Engine services become explicit data:
- A call into another component is returned as a value (an effect, action or request), in the order the call happens.
- `Random.Range(0, n)` is an oracle natural reduced modulo `n` (`Common.Draw`).
- Time is a `real` parameter `now`.
- Physics queries are inputs: the colliders in a blast, and the enemy projectiles found by the scene search.
- Distances and sampled spawn positions are inputs.
- Coroutines run synchronously up to their first wait when started. A suspended wave-spawn coroutine resumes only through an explicit event.

Files:
- `common.dfy`: shared vocabulary.
- `firegate.dfy`: the fire gate that enemies and weapons share.
- `pool.dfy`, `horde.dfy`, `enemy.dfy`, `player.dfy`, `spawner.dfy`, `weapons.dfy`, `projectiles.dfy` and `pickup.dfy`: one module per source component.
- `game.dfy`: the cross-component statements.

## Model

Source paths are relative to the repository root.

| member | source | states |
|---|---|---|
| Common.Draw | Assets/Custom/Scripts/Enemies/HordeManager.cs:245 | an integer draw of `Random.Range(0, n)` always lands in `[0, n)`, so the index into the eligible list is in bounds |
| Common.Truncate | Assets/Custom/Scripts/Weapons/PlayerProjectile.cs:47 | the C# `(int)` cast of a float cuts toward zero: the result is within one unit of the value, on the side of zero, and never changes sign |
| Common.Clamp | Assets/Custom/Scripts/Player/PlayerController.cs:90 | Unity's integer clamp keeps a value inside `[lo, hi]` when `lo <= hi`, returns in-range values unchanged, and tests the lower bound first |
| FireGate.Try | Assets/Custom/Scripts/Enemies/EnemyController.cs:112-119 | the gate acts exactly when `now` has reached the stored time; after acting with a positive rate it is shut at `now`; with rate zero it stores +Infinity; without acting it is unchanged |
| FireGate.ShotsAreOnePeriodApart | Assets/Custom/Scripts/Weapons/WeaponBehavior.cs:13-20 | two consecutive shots let through by the gate are at least `1/fireRate` apart |
| FireGate.ZeroRateShutsForever | Assets/Custom/Scripts/Weapons/WeaponBehavior.cs:18 | after firing with rate zero (`1/0` is +Infinity) the gate never opens again |
| FireGate.FreshGateOpensAtNonNegativeTime | Assets/Custom/Scripts/Weapons/WeaponBehavior.cs:6-17 | a gate still holding the float default 0 acts at every non-negative time |
| PoolManager.Spawn | Assets/Custom/Scripts/Systems/PoolManager.cs:29-46 | a null prefab gives null and touches nothing. Otherwise the prefab's pool is created if missing, and the returned instance is active. It is an idle instance of that pool when one exists, otherwise a new object routed to that pool. |
| PoolManager.Empty | Assets/Custom/Scripts/Systems/PoolManager.cs:10-14 | the manager starts with both maps empty and no object known, a consistent state |
| PoolManager.SpawnKeepsValid | Assets/Custom/Scripts/Systems/PoolManager.cs:84-111 | on consistent pools, a spawn keeps every idle instance in its own pool and keeps active and idle disjoint. The returned instance is live and routed to the requested prefab. A newly created one was unknown before. |
| PoolManager.Despawn | Assets/Custom/Scripts/Systems/PoolManager.cs:51-68 | Despawn does nothing for null or destroyed references, or for an idle pooled instance. A pooled active instance turns inactive and goes back to its own pool, and no other pool changes. An object the pools never made is destroyed. |
| PoolManager.DespawnKeepsValid | Assets/Custom/Scripts/Systems/PoolManager.cs:51-68 | a despawn on consistent pools keeps them consistent |
| PoolManager.DespawnAfter | Assets/Custom/Scripts/Systems/PoolManager.cs:73-76 | a delayed despawn only records a timer for `now + delay` and changes nothing else |
| PoolManager.FireTimer | Assets/Custom/Scripts/Systems/PoolManager.cs:78-82 | A due timer leaves the pending list, and the other timers keep their order. There is no check that its target is the incarnation it was set for. A null, destroyed or already idle target is left as it is. A pooled active target turns inactive and joins its own pool's idle instances, and no other pool changes. An object no pool made is destroyed. |
| PoolManager.FireTimerKeepsValid | Assets/Custom/Scripts/Systems/PoolManager.cs:78-82 | a firing timer keeps the pools consistent |
| PoolManager.Instantiate | Assets/Custom/Scripts/Weapons/MeleeWeapon.cs:11 | plain instantiation makes a new active object that no pool knows about and leaves the pools alone |
| PoolManager.RunKeepsValid | Assets/Custom/Scripts/Systems/PoolManager.cs:37-40 | over any run of spawns, despawns, timers and instantiations the pools stay consistent, and neither the prefab-to-pool map nor the routing map ever loses a key |
| PoolManager.DespawnTwiceIsDespawnOnce | Assets/Custom/Scripts/Systems/PoolManager.cs:53-61 | despawning twice is despawning once |
| PoolManager.SpawnDespawnSpawnReusesInstance | Assets/Custom/Scripts/Systems/PoolManager.cs:42-60 | an instance returned to an otherwise empty pool is handed out again, active and still routed to the same prefab |
| PoolManager.StaleTimerDespawnsReusedInstance | Assets/Custom/Scripts/Systems/PoolManager.cs:73-82 | a delayed despawn is not tied to one incarnation: set before a despawn and respawn, it still deactivates the respawned instance |
| PoolManager.InstantiatedObjectIsDestroyedOnDespawn | Assets/Custom/Scripts/Systems/PoolManager.cs:63-66 | an object made by plain instantiation is destroyed, not pooled, by a despawn |
| HordeManager.Initial | Assets/Custom/Scripts/Enemies/HordeManager.cs:30-38 | the director starts in a state satisfying the counter invariant |
| HordeManager.Eligible | Assets/Custom/Scripts/Enemies/HordeManager.cs:238-243 | a type is eligible exactly when it is in the table and the current wave has reached its unlock level |
| HordeManager.GetRandomEnemyPrefab | Assets/Custom/Scripts/Enemies/HordeManager.cs:232-246 | null when the table is empty or nothing is unlocked; otherwise the prefab of some unlocked type |
| HordeManager.EveryEligibleTypeCanBeDrawn | Assets/Custom/Scripts/Enemies/HordeManager.cs:245 | every unlocked type is chosen by some draw, so selection ranges over all unlocked types |
| HordeManager.SpawnChanceIsNeverRead | Assets/Custom/Scripts/Enemies/HordeManager.cs:232-246 | two tables that differ only in spawn chances select the same prefab for every draw |
| HordeManager.EligibleIgnoresChance | Assets/Custom/Scripts/Enemies/HordeManager.cs:238-243 | the unlock filter gives the same list, up to spawn chances, for tables that differ only in spawn chances |
| HordeManager.SpawnLoopPass | Assets/Custom/Scripts/Enemies/HordeManager.cs:101-127 | The loop body runs only while spawned < total, and not in the calm phase. It counts exactly one slot even when no prefab was eligible, and requests at most one single-enemy batch, for exactly the prefab the eligible-type draw returned. In the calm phase the loop stops without spawning. A finished loop writes Fighting whatever the state was. |
| HordeManager.Resume | Assets/Custom/Scripts/Enemies/HordeManager.cs:104-116 | waking a suspended wave-spawn coroutine changes no wave, total, alive count or pickups, and raises spawned by at most one |
| HordeManager.WaveReset | Assets/Custom/Scripts/Enemies/HordeManager.cs:87-93 | a proceeding wave start raises the wave by exactly one, enters Spawning, zeroes spawned and sets alive to the new total |
| HordeManager.StartNextWave | Assets/Custom/Scripts/Enemies/HordeManager.cs:83-99 | A wave start is ignored while spawning or fighting. From waiting or calm it announces wave n+1 first. The spawn loop's first pass then runs at once, so one slot is already counted unless the wave is empty. |
| HordeManager.ClearPickups | Assets/Custom/Scripts/Enemies/HordeManager.cs:223-230 | every offered pickup is destroyed, in order, and the list is emptied |
| HordeManager.OfferCount | Assets/Custom/Scripts/Enemies/HordeManager.cs:194-199 | a calm phase offers as many pickups as the smallest of 3, the number of upgrades and the number of spawn points |
| HordeManager.Offers | Assets/Custom/Scripts/Enemies/HordeManager.cs:193-209 | the calm phase offers min(3, upgrades, spawn points) pickups; the i-th stands on spawn point i and carries a valid upgrade index |
| HordeManager.SpawnUpgrades | Assets/Custom/Scripts/Enemies/HordeManager.cs:181-211 | Old pickups are destroyed first, one effect each, in order. Without a pickup prefab or upgrades, the next wave then starts from a state without pickups, with exactly the wave start's effects. Otherwise the offered pickups, min(3, upgrades, spawn points) of them, the i-th on spawn point i with an in-range upgrade, are placed and announced in order, and nothing else changes. |
| HordeManager.Sweep | Assets/Custom/Scripts/Enemies/HordeManager.cs:156-166 | every enemy projectile found by the scene search is despawned, one request each |
| HordeManager.EndWave | Assets/Custom/Scripts/Enemies/HordeManager.cs:143-211 | The wave end sweeps the stray projectiles, announces the wave end and the calm phase, and then has exactly the effects of the upgrade offer. With a pickup prefab and upgrades the director is in the calm phase, counters and wave kept, offering min(3, upgrades, spawn points) pickups. Otherwise the next wave has already started. |
| HordeManager.HandleEnemyDeath | Assets/Custom/Scripts/Enemies/HordeManager.cs:129-141 | a death is ignored in the calm phase; otherwise alive falls by exactly one, and the wave ends exactly when alive <= 0 and spawned >= total |
| HordeManager.OnUpgradePicked | Assets/Custom/Scripts/Enemies/HordeManager.cs:213-221 | A pick is ignored outside the calm phase. In the calm phase, a pickup with no upgrade raises a null-reference exception before anything changes. Otherwise all pickups are destroyed and wave n+1 starts. |
| HordeManager.StartNextWaveKeepsInv | Assets/Custom/Scripts/Enemies/HordeManager.cs:83-117 | a wave start keeps 0 <= spawned <= total, "fighting or calm implies all spawned", "calm implies nobody alive", "spawning implies a live loop" and at most three pickups |
| HordeManager.HandleEnemyDeathKeepsInv | Assets/Custom/Scripts/Enemies/HordeManager.cs:129-154 | a death, including the wave end it may cause, keeps the counter invariant |
| HordeManager.ApplyKeepsInv | Assets/Custom/Scripts/Enemies/HordeManager.cs:83-221 | every event keeps the counter invariant and raises the wave by at most one |
| HordeManager.RunKeepsInv | Assets/Custom/Scripts/Enemies/HordeManager.cs:83-221 | over any run of events the counter invariant holds, and the wave number never falls and rises by at most one per event |
| HordeManager.AliveFallsOnlyByDeaths | Assets/Custom/Scripts/Enemies/HordeManager.cs:87-141 | within a wave, alive falls only through deaths. A run with fewer deaths than enemies alive keeps the wave, never reaches the calm phase, and ends with exactly alive - deaths. So a slot that spawned nothing blocks the wave end forever. |
| HordeManager.StaleLoopOverwritesCalmPhase | Assets/Custom/Scripts/Enemies/HordeManager.cs:104-115 | a wave-spawn coroutine still suspended at the wave end writes Fighting over the calm phase when it wakes, keeping the offered pickups, and a pick is then ignored |
| EnemyController.OnEnable | Assets/Custom/Scripts/Enemies/EnemyController.cs:42-51 | every activation restores full health and clears the death flag. A failed player search keeps the old reference, and the fire gate is not reset. |
| EnemyController.Created | Assets/Custom/Scripts/Enemies/EnemyController.cs:22-35 | before its first activation an enemy has no player reference and is not dead, and its fire gate, at the float default 0, is open at every non-negative time |
| EnemyController.KiterMove | Assets/Custom/Scripts/Enemies/EnemyController.cs:82-100 | the kiter approaches exactly when beyond the stopping distance, retreats exactly when within it and closer than the retreat distance, and holds otherwise |
| EnemyController.Shoot | Assets/Custom/Scripts/Enemies/EnemyController.cs:121-133 | no projectile without a prefab; otherwise exactly one, carrying the configured speed and damage |
| EnemyController.AttemptToShoot | Assets/Custom/Scripts/Enemies/EnemyController.cs:112-119 | The gate decides. When due, the enemy shoots and the gate moves one period ahead, even without a prefab. Otherwise nothing changes. |
| EnemyController.Update | Assets/Custom/Scripts/Enemies/EnemyController.cs:58-110 | Nothing happens without a player reference. A chaser only approaches and never shoots. A kiter moves, then always goes through the gate. A turret never moves and only goes through the gate. Behaviour never touches health. |
| EnemyController.EnemyShotsAreOnePeriodApart | Assets/Custom/Scripts/Enemies/EnemyController.cs:58-119 | after a frame in which a kiter or turret went through its open gate with a positive fire rate, the gate stands one period ahead, and no run of later frames before then fires again or changes the enemy, whatever the distances |
| EnemyController.TakeDamage | Assets/Custom/Scripts/Enemies/EnemyController.cs:135-142 | health falls by exactly the amount; the death path runs only when health reaches zero or below, and raises the death event and a despawn only if the enemy was not dead yet |
| EnemyController.Die | Assets/Custom/Scripts/Enemies/EnemyController.cs:144-151 | The first call marks the enemy dead, raises the death event, then despawns the enemy. Later calls do nothing. |
| EnemyController.DiesAtMostOnce | Assets/Custom/Scripts/Enemies/EnemyController.cs:135-151 | Over any hits in one activation, the death event fires once exactly when the enemy was alive and some prefix of the hits was lethal, and never otherwise. Each death brings exactly one despawn. Health ends at h - sum. |
| EnemyController.ReusedEnemyDiesAgain | Assets/Custom/Scripts/Enemies/EnemyController.cs:42-151 | after any earlier hits, reactivation from the pool lets the enemy die exactly once more when the new hits are lethal from full health, and never otherwise. Health ends at max - sum, and the fire gate carries over from the earlier life. |
| EnemyController.OnCollisionEnter | Assets/Custom/Scripts/Enemies/EnemyController.cs:159-177 | contact with a player-tagged object announces the hit and applies exactly the contact damage when the object has a player; anything else does nothing |
| PlayerController.Awake | Assets/Custom/Scripts/Player/PlayerController.cs:29-36 | the player starts at full health |
| PlayerController.TakeDamage | Assets/Custom/Scripts/Player/PlayerController.cs:87-99 | health becomes clamp(h - a, 0, max), in range. One health-changed notification carries (current, max). A death report follows exactly when health is at zero or below. |
| PlayerController.Heal | Assets/Custom/Scripts/Player/PlayerController.cs:101-108 | health becomes clamp(h + a, 0, max), in range, with exactly one health-changed notification and never a death report |
| PlayerController.HealUndoesUnclampedDamage | Assets/Custom/Scripts/Player/PlayerController.cs:87-108 | healing by an unclamped damage restores the player exactly |
| PlayerController.DeathIsReportedOnEveryLethalHit | Assets/Custom/Scripts/Player/PlayerController.cs:95-98 | death is not reported once only: every further hit on a player at zero reports it again |
| PlayerController.RunStaysHealthy | Assets/Custom/Scripts/Player/PlayerController.cs:87-108 | over any run of damage and healing, health stays in range and the maximum is fixed. There is exactly one health-changed notification per operation, each carrying the maximum and an in-range health. |
| EnemySpawner.SpawnBatch | Assets/Custom/Scripts/Enemies/EnemySpawner.cs:25-41 | With no spawn areas, nothing starts. Otherwise exactly max(count, 0) routines start, each for the given prefab, at an existing area and at the point that area sampled. |
| EnemySpawner.RoutineTrace | Assets/Custom/Scripts/Enemies/EnemySpawner.cs:43-66 | a spawn coroutine makes five requests with a warning prefab and three without. It starts with the warning spawn, or with the wait when there is no warning, and ends by spawning the enemy at the sampled point and then announcing it. |
| EnemySpawner.RoutineOrder | Assets/Custom/Scripts/Enemies/EnemySpawner.cs:43-66 | A warning is spawned exactly when a warning prefab is set, and despawned after the wait and before the enemy spawn. Every spawn uses the same point. The enemy spawns once, after the wait. The announcement comes once and last, carrying the enemy slot. |
| EnemySpawner.RoutineCount | Assets/Custom/Scripts/Enemies/EnemySpawner.cs:43-66 | each request of a routine occurs once: the warning spawn and despawn only with a warning prefab; the wait, the enemy spawn and the announcement always |
| Weapons.ShotCount | Assets/Custom/Scripts/Weapons/ProjectileWeapon.cs:14-15 | a burst has the configured projectile count, or one when that is not positive |
| Weapons.BurstFrom | Assets/Custom/Scripts/Weapons/ProjectileWeapon.cs:17-24 | the burst loop from iteration i of n yields nothing once i reaches n. Otherwise it starts with a shot and holds at least n - i steps. When the pause is not positive it is exactly n - i steps, every one a shot. |
| Weapons.BurstSteps | Assets/Custom/Scripts/Weapons/ProjectileWeapon.cs:12-25 | the whole burst equals the directly stated shape: with a positive gap, shots and pauses of exactly the gap alternate; otherwise there are only shots. The number of shots is the normalised projectile count. |
| Weapons.BurstFromIsShape | Assets/Custom/Scripts/Weapons/ProjectileWeapon.cs:17-24 | the burst loop produces shots alternating with pauses of exactly the gap when the gap is positive, and shots only otherwise |
| Weapons.BurstProperties | Assets/Custom/Scripts/Weapons/ProjectileWeapon.cs:12-25 | A burst starts with an immediate shot and ends with a shot. With a positive gap there are exactly count - 1 pauses, one between each pair of shots. Otherwise there are no pauses. |
| Weapons.Initialize | Assets/Custom/Scripts/Weapons/WeaponController.cs:34-45 | a new behaviour is melee exactly when the data says so and is bound to that data; its gate default lets it attack at any non-negative time |
| Weapons.MeleeReadsPrefabAndDamageOnly | Assets/Custom/Scripts/Weapons/MeleeWeapon.cs:5-23 | without a prefab a melee weapon does nothing. Otherwise it instantiates a slash 1.5 units ahead, with zero direction, zero speed, the weapon's damage, not explosive and zero radius. Speed, explosive flag, area of effect and burst settings of a melee weapon are never read. |
| Weapons.AttackOf | Assets/Custom/Scripts/Weapons/ProjectileWeapon.cs:5-40 | no attack without a prefab; a melee weapon slashes and a ranged weapon bursts. A ranged attack is a burst of the normalised count, whose projectiles carry the weapon's damage, speed, explosive flag and area of effect along the weapon's facing |
| Weapons.TryAttack | Assets/Custom/Scripts/Weapons/WeaponBehavior.cs:13-20 | When due, the weapon attacks and the gate moves to now + 1/fireRate, even without a prefab. When not due, nothing changes. Kind and data never change. |
| Weapons.AttacksAreOnePeriodApart | Assets/Custom/Scripts/Weapons/WeaponBehavior.cs:13-20 | after an attack at t, no number of tries before t + 1/fireRate attacks again or moves the gate |
| Weapons.ZeroRateFiresOnce | Assets/Custom/Scripts/Weapons/WeaponBehavior.cs:18 | a weapon with fire rate zero attacks once and then never again |
| Weapons.AddWeapon | Assets/Custom/Scripts/Weapons/WeaponController.cs:32-48 | exactly one new behaviour is appended for the data, and every existing entry stays as it was |
| Weapons.Start | Assets/Custom/Scripts/Weapons/WeaponController.cs:9-15 | the starting weapons are appended in list order, after the existing ones |
| Weapons.TryAll | Assets/Custom/Scripts/Weapons/WeaponController.cs:26-29 | every weapon is tried exactly once, in list order |
| Weapons.Update | Assets/Custom/Scripts/Weapons/WeaponController.cs:17-30 | In the director's calm phase nothing is tried. Otherwise (including when there is no director) every weapon gets exactly one try, in insertion order, and the attacks come out in that order. |
| Weapons.FiresIff | Assets/Custom/Scripts/Weapons/WeaponController.cs:17-30 | a weapon slot attacks in a frame exactly when the director is not in its calm phase, the slot's gate is due and its weapon has a prefab |
| Weapons.WeaponsAreKept | Assets/Custom/Scripts/Weapons/WeaponController.cs:32-48 | over any run of additions and frames the weapon list grows by exactly the additions, and every weapon keeps its position, kind and data |
| PlayerProjectile.Initialize | Assets/Custom/Scripts/Weapons/PlayerProjectile.cs:11-20 | the projectile stores its parameters and schedules its own despawn 5 seconds later |
| PlayerProjectile.Explode | Assets/Custom/Scripts/Weapons/PlayerProjectile.cs:53-75 | an explosion only ever damages enemies and the player, nothing else |
| PlayerProjectile.OnTriggerEnter | Assets/Custom/Scripts/Weapons/PlayerProjectile.cs:27-51 | Only enemy-tagged colliders count. An explosive hit damages the blast, not the struck enemy as such. A plain hit damages only the struck enemy, by the truncated damage. Every hit ends with exactly one self-despawn. |
| PlayerProjectile.BlastOneCounts | Assets/Custom/Scripts/Weapons/PlayerProjectile.cs:62-72 | one collider in the blast yields one full-damage hit for its enemy, if it has one, and one half-damage hit for its player, if it has one, and nothing else |
| PlayerProjectile.ExplodeCounts | Assets/Custom/Scripts/Weapons/PlayerProjectile.cs:58-74 | Each enemy in the blast takes `(int)damage` once per collider carrying it. The player takes `(int)(damage/2)` once per player collider. Every enemy damaged was in the blast. |
| PlayerProjectile.PlainHitDamagesStruckEnemyOnly | Assets/Custom/Scripts/Weapons/PlayerProjectile.cs:43-50 | a plain hit on an enemy deals `(int)damage` to it and then despawns the projectile, nothing more |
| EnemyProjectile.Created | Assets/Custom/Scripts/Enemies/EnemyProjectile.cs:6-8 | before initialisation the projectile deals 1 damage and lives 5 seconds |
| EnemyProjectile.Initialize | Assets/Custom/Scripts/Enemies/EnemyProjectile.cs:10-26 | speed and damage come from the arguments, the lifetime is kept, and a self-despawn is scheduled after the lifetime |
| EnemyProjectile.OnTriggerEnter | Assets/Custom/Scripts/Enemies/EnemyProjectile.cs:33-56 | A player-tagged hit announces the hit, applies exactly the damage when the object has a player, then despawns. A wall or obstacle only despawns. Any other tag does nothing. |
| EnemyProjectile.DespawnsAtMostOnce | Assets/Custom/Scripts/Enemies/EnemyProjectile.cs:33-56 | a contact despawns the projectile once and last for player, wall and obstacle tags, and never otherwise |
| EnemyProjectile.HitsLikeContact | Assets/Custom/Scripts/Enemies/EnemyProjectile.cs:35-50 | for any collider, what the projectile asks of the player side equals the body-contact outcome of an enemy whose contact damage is the projectile's damage |
| UpgradePickup.OnTriggerEnter | Assets/Custom/Scripts/Weapons/UpgradePickup.cs:8-33 | Only a player-tagged toucher with a player and a weapon controller has any effect, and only while the collider is on. The weapon is granted whatever the director does. The director throws exactly for a missing upgrade in the calm phase. The collider goes off exactly when the handler runs to its end. |
| UpgradePickup.PickedOnce | Assets/Custom/Scripts/Weapons/UpgradePickup.cs:30 | once a touch has run to its end, no later touch by anyone has any effect |
| UpgradePickup.NullUpgradeStaysArmed | Assets/Custom/Scripts/Enemies/HordeManager.cs:213-218 | a pickup with no upgrade, touched in the calm phase, throws on every touch and never switches off |
| UpgradePickup.PickedOutsideCalmPhase | Assets/Custom/Scripts/Weapons/UpgradePickup.cs:16-26 | outside the calm phase a pickup still grants its weapon and switches off, while the director ignores it |
| UpgradePickup.PickedInCalmPhase | Assets/Custom/Scripts/Weapons/UpgradePickup.cs:16-26 | in the calm phase a pick grants the weapon and starts the next wave, clearing every pickup |
| Game.RoutineAnnouncesItsEnemy | Assets/Custom/Scripts/Enemies/EnemySpawner.cs:43-66 | On consistent pools, a spawn routine keeps them consistent and announces exactly one object, the enemy it spawned. That object is null for a null prefab, otherwise an active instance of the prefab's pool. The warning is back in its pool unless it was reused as the enemy. |
| Game.DirectorBatchAnnouncesOneEnemy | Assets/Custom/Scripts/Enemies/HordeManager.cs:119-127 | every spawn request of the director's loop is a batch of one, for the prefab of a type unlocked at the current wave that the draw chose. The spawner starts exactly one routine for it when it has spawn areas and none otherwise, and that routine announces exactly one enemy, an active instance of the requested prefab's pool. |
| Game.HitsCostAtMostOneLife | Assets/Custom/Scripts/Enemies/EnemyController.cs:144-151 | however many hits an enemy takes in one activation, the director loses exactly one alive enemy if they were lethal and none otherwise, and the wave continues |
| Game.TwoLethalHitsOneDeath | Assets/Custom/Scripts/Enemies/HordeManager.cs:129-141 | two hits, each lethal on its own, lower the director's alive count by exactly one |
| Game.SlashIsDestroyedAfterItsLifetime | Assets/Custom/Scripts/Weapons/MeleeWeapon.cs:11-21 | a melee slash is instantiated outside the pools. Assuming its prefab carries the projectile component, its initialisation schedules a 5-second despawn. A slash that has touched no enemy is live right after the attack, and when the lifetime despawn comes due it destroys the slash instead of pooling it. |
| Game.SlashIsDestroyedByItsFirstHit | Assets/Custom/Scripts/Weapons/PlayerProjectile.cs:27-51 | a slash's first enemy contact ends it early: the plain hit deals `(int)damage` to the enemy, if the collider has one, and the slash's despawn marks it for destruction at the end of the frame, since no pool owns it. A second enemy touched in the same physics step is hit for the same damage, and the despawn it requests changes nothing more. The lifetime timer later finds a destroyed object and does nothing but leave the pending list. |

## Left out

- The wave-size formula (`baseEnemiesPerWave * difficultyMultiplier^(wave-1)`, rounded) is floating-point arithmetic. It is the configuration function `waveSize`, assumed non-negative.
- The pool library's `defaultCapacity` and `maxSize`, and the path where the library itself destroys instances beyond `maxSize`, are not modelled. The library's code is not visible, so no cap on pool sizes is claimed. The model's pool hands out any idle instance, chosen by an oracle.
- Vector maths and movement are abstracted. This covers `MoveTowards`, `Distance`, normalisation, `Translate`, rotations and the player's movement and facing code. The kiter's distance is an input, and projectile directions are only named.
- `SpawnArea` position sampling is an oracle. The chosen area and the point it returned are inputs to each routine.
- Physics queries are inputs: the colliders inside a blast radius, and the enemy projectiles found by the scene search at the wave end.
- Coroutine timing is not modelled: the two-second first-wave delay, the random 0.5-1.5 s wait between spawns, the warning wait, burst pauses and lifetimes. Waits are named in the traces, resumption is an explicit event, and timers fire when their due time is reached.
- The physical placement of instances (positions, rotations, parenting) is not modelled. The melee slash's 1.5-unit offset is kept as data.
- Integers are unbounded. 32-bit wrap-around of health, counters and damage is not modelled, since it needs values far beyond the game's configuration.
- Floats are reals. Rounding and NaN are not modelled. The one infinite value the code can produce (`1/0` for a fire rate of zero) is modelled as a gate that never opens.
- Missing components are not modelled. The model assumes the components that `GetComponent` is expected to find are there: the pickup's collider, the spawned pickup's component, the enemy spawner reference, and the projectile component on projectile and slash prefabs. So the checks `projectile != null` in the enemy's shot and `pp != null` in both weapons always succeed: the model's attacks always carry the projectile's initialisation. A slash prefab without the component would never be despawned at all; the model does not cover that case. The optional components whose absence the code checks on colliders (player, enemy) are modelled.
- Destroy is modelled as immediate: a destroyed object is null from the moment it is despawned. The engine defers destruction to the end of the frame, so an unpooled object such as the slash can still take further contacts in the frame of its first hit, and a second despawn in that frame destroys it again. Neither changes the state at the end of the frame.
- SlashIsDestroyedByItsFirstHit (in `Game`) does not establish that the slash stops at its first hit. It states the hit outcome for a second enemy touched in the same frame and that the repeated despawn changes nothing more. It does not model the order of contacts within a physics step, nor which contacts the engine still delivers after the first.
- Null entries in weapon lists are not modelled: the controller's starting weapons, and the director's available upgrades when a pickup is placed. A null upgrade reaching a pickup is modelled.
- Sprites, logging, the player's animation, and `PlayerController.ApplyUpgrade` (a logging stub) are not part of this model.
- The root-level `HordeManager.cs` and `EnemyController.cs` are superseded duplicates of the `Enemies/` classes, and `GameManager.cs` only plays an effect. They are not part of this model.
- Singleton set-up (`Awake` duplicates) and event subscription are not modelled. The director is assumed to receive every enemy death event, and the weapon controller reads the director's state directly.
- HordeManager.Inv does not claim `enemiesAlive >= 0`. Alive falls by one on every death event outside the calm phase, so it stays non-negative only if death events match spawned enemies. An enemy activated outside the director's waves would break that.
