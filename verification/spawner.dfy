/**
 The enemy spawner: a batch request starts one spawn coroutine per enemy,
 each at a position drawn from a randomly chosen spawn area; each coroutine
 shows an optional warning, waits, removes the warning, spawns the enemy
 at the same position, and announces it.

 A spawn area's sampler is an oracle: the model records which area was
 chosen and the point it returned. A coroutine is modelled as the trace of
 requests it makes, in order; `Slot` names the instance a spawn request
 returned so that later requests can refer to it.
 */
module EnemySpawner {
  import opened Common

  /** The draws behind one routine: a roll choosing the area, and the point that area sampled. */
  datatype Sample = Sample(areaRoll: nat, pos: Pos)

  /** A started spawn coroutine: the prefab to spawn, the chosen area and the sampled point. */
  datatype Routine = Routine(prefab: Option<Template>, area: nat, pos: Pos)

  /**
   Start a batch: nothing at all without spawn areas; otherwise one routine
   per requested enemy (none for a non-positive count), the i-th using the
   i-th draws.
   */
  function SpawnBatch(areaCount: nat, prefab: Option<Template>, count: int, samples: nat -> Sample): (rs: seq<Routine>)
    ensures areaCount == 0 ==> rs == []
    ensures areaCount > 0 ==> |rs| == (if count > 0 then count else 0)
    ensures forall i | 0 <= i < |rs| ::
      && rs[i].prefab == prefab
      && rs[i].area < areaCount
      && rs[i].area == samples(i).areaRoll % areaCount
      && rs[i].pos == samples(i).pos
  {
    if areaCount == 0 then []
    else
      var n := if count > 0 then count else 0;
      var rs := seq(n, i requires 0 <= i => Routine(prefab, Draw(samples(i).areaRoll, areaCount), samples(i).pos));
      assert forall i | 0 <= i < n :: rs[i] == Routine(prefab, Draw(samples(i).areaRoll, areaCount), samples(i).pos);
      rs
  }

  /** The two instances a routine handles. */
  datatype Slot = WarningSlot | EnemySlot

  datatype SpawnRequest =
    | PoolSpawn(slot: Slot, prefab: Option<Template>, pos: Pos)  // spawn from the pool, remember the instance in `slot`
    | Wait(seconds: real)                                        // the coroutine suspends
    | PoolDespawn(slot: Slot)                                    // return the instance in `slot`
    | NotifySpawned(slot: Slot)                                  // announce the instance in `slot`

  /** The requests of one spawn routine, given the spawner's warning prefab and warning duration. */
  function RoutineTrace(warningPrefab: Option<Template>, warningDuration: real, r: Routine): (t: seq<SpawnRequest>)
    ensures |t| == if warningPrefab.Some? then 5 else 3
    ensures t[0] == if warningPrefab.Some? then PoolSpawn(WarningSlot, warningPrefab, r.pos) else Wait(warningDuration)
    ensures t[|t| - 2] == PoolSpawn(EnemySlot, r.prefab, r.pos) && t[|t| - 1] == NotifySpawned(EnemySlot)
  {
    (if warningPrefab.Some? then [PoolSpawn(WarningSlot, warningPrefab, r.pos)] else [])
    + [Wait(warningDuration)]
    + (if warningPrefab.Some? then [PoolDespawn(WarningSlot)] else [])
    + [PoolSpawn(EnemySlot, r.prefab, r.pos), NotifySpawned(EnemySlot)]
  }

  /** Index of the first occurrence of `x` in `s`, or `|s|`. */
  function IndexOf(s: seq<SpawnRequest>, x: SpawnRequest): (i: nat)
    ensures i <= |s|
    ensures i < |s| ==> s[i] == x
    ensures forall j | 0 <= j < i :: s[j] != x
  {
    if s == [] then 0 else if s[0] == x then 0 else 1 + IndexOf(s[1..], x)
  }

  lemma CountOne(y: SpawnRequest, x: SpawnRequest)
    ensures Count([y], x) == if y == x then 1 else 0
  {
    assert [y][1..] == [];
  }

  /** Occurrences in a routine's trace, piece by piece. */
  lemma RoutineCount(warningPrefab: Option<Template>, warningDuration: real, r: Routine, x: SpawnRequest)
    ensures Count(RoutineTrace(warningPrefab, warningDuration, r), x)
      == (if warningPrefab.Some? && x == PoolSpawn(WarningSlot, warningPrefab, r.pos) then 1 else 0)
       + (if x == Wait(warningDuration) then 1 else 0)
       + (if warningPrefab.Some? && x == PoolDespawn(WarningSlot) then 1 else 0)
       + (if x == PoolSpawn(EnemySlot, r.prefab, r.pos) then 1 else 0)
       + (if x == NotifySpawned(EnemySlot) then 1 else 0)
  {
    var a: seq<SpawnRequest> := if warningPrefab.Some? then [PoolSpawn(WarningSlot, warningPrefab, r.pos)] else [];
    var w: seq<SpawnRequest> := [Wait(warningDuration)];
    var b: seq<SpawnRequest> := if warningPrefab.Some? then [PoolDespawn(WarningSlot)] else [];
    var c: seq<SpawnRequest> := [PoolSpawn(EnemySlot, r.prefab, r.pos), NotifySpawned(EnemySlot)];
    assert RoutineTrace(warningPrefab, warningDuration, r) == a + w + b + c;
    CountConcat(a + w + b, c, x);
    CountConcat(a + w, b, x);
    CountConcat(a, w, x);
    CountOne(Wait(warningDuration), x);
    assert c == [PoolSpawn(EnemySlot, r.prefab, r.pos)] + [NotifySpawned(EnemySlot)];
    CountConcat([PoolSpawn(EnemySlot, r.prefab, r.pos)], [NotifySpawned(EnemySlot)], x);
    CountOne(PoolSpawn(EnemySlot, r.prefab, r.pos), x);
    CountOne(NotifySpawned(EnemySlot), x);
    if warningPrefab.Some? {
      CountOne(PoolSpawn(WarningSlot, warningPrefab, r.pos), x);
      CountOne(PoolDespawn(WarningSlot), x);
    }
  }

  /**
   The shape of every routine: a warning is spawned exactly when a warning
   prefab is set, and then removed after the wait and before the enemy is
   spawned; the enemy is spawned at the warning's point, after the wait;
   the announcement comes once, last, and carries the enemy's instance.
   */
  lemma RoutineOrder(warningPrefab: Option<Template>, warningDuration: real, r: Routine)
    ensures var t := RoutineTrace(warningPrefab, warningDuration, r);
      var spawnEnemy := PoolSpawn(EnemySlot, r.prefab, r.pos);
      && (PoolSpawn(WarningSlot, warningPrefab, r.pos) in t <==> warningPrefab.Some?)
      && (PoolDespawn(WarningSlot) in t <==> warningPrefab.Some?)
      && (forall q | q in t && q.PoolSpawn? :: q.pos == r.pos)
      && (forall q | q in t && q.PoolSpawn? && q.slot == WarningSlot :: q.prefab == warningPrefab)
      && Count(t, spawnEnemy) == 1
      && Count(t, Wait(warningDuration)) == 1
      && IndexOf(t, Wait(warningDuration)) < IndexOf(t, spawnEnemy)
      && (warningPrefab.Some? ==>
            && IndexOf(t, PoolSpawn(WarningSlot, warningPrefab, r.pos)) < IndexOf(t, Wait(warningDuration))
            && IndexOf(t, Wait(warningDuration)) < IndexOf(t, PoolDespawn(WarningSlot))
            && IndexOf(t, PoolDespawn(WarningSlot)) < IndexOf(t, spawnEnemy))
      && (forall q | q in t :: q.NotifySpawned? ==> q == NotifySpawned(EnemySlot))
      && Count(t, NotifySpawned(EnemySlot)) == 1
      && t[|t| - 1] == NotifySpawned(EnemySlot)
      && t[|t| - 2] == spawnEnemy
  {
    var t := RoutineTrace(warningPrefab, warningDuration, r);
    var spawnEnemy := PoolSpawn(EnemySlot, r.prefab, r.pos);
    var c := [spawnEnemy, NotifySpawned(EnemySlot)];
    RoutineCount(warningPrefab, warningDuration, r, spawnEnemy);
    RoutineCount(warningPrefab, warningDuration, r, Wait(warningDuration));
    RoutineCount(warningPrefab, warningDuration, r, NotifySpawned(EnemySlot));
    assert c[1..] == [NotifySpawned(EnemySlot)];
    if warningPrefab.Some? {
      var w := PoolSpawn(WarningSlot, warningPrefab, r.pos);
      assert t == [w, Wait(warningDuration), PoolDespawn(WarningSlot), spawnEnemy, NotifySpawned(EnemySlot)];
      assert t[1..] == [Wait(warningDuration), PoolDespawn(WarningSlot), spawnEnemy, NotifySpawned(EnemySlot)];
      assert t[2..] == [PoolDespawn(WarningSlot), spawnEnemy, NotifySpawned(EnemySlot)];
      assert t[3..] == [spawnEnemy, NotifySpawned(EnemySlot)];
    } else {
      assert t == [Wait(warningDuration), spawnEnemy, NotifySpawned(EnemySlot)];
      assert t[1..] == [spawnEnemy, NotifySpawned(EnemySlot)];
    }
  }
}
