/**
 The player's weapons: weapon data, a weapon behaviour with a fire-rate
 gate, the two attack kinds (a ranged burst of pooled projectiles and a
 melee slash instantiated in front of the player), and the controller that
 holds the active weapons and auto-fires them except during the calm phase.

 An attack is returned as data describing what it asks of the world; the
 burst coroutine is modelled as its sequence of shots and pauses.
 */
module Weapons {
  import opened Common
  import FireGate
  import HordeManager

  datatype WeaponData = WeaponData(
    name: string,
    prefab: Option<Template>,          // projectile prefab, or the slash effect prefab
    damage: real,
    fireRate: real,                    // attacks per second
    speed: real,                       // projectile speed
    isMelee: bool,
    isExplosive: bool,
    areaOfEffect: real,
    projectileCount: int,
    timeBetweenProjectiles: real)

  datatype Kind = Melee | Ranged

  /** A weapon behaviour attached to the player: its kind, its data and its fire gate. */
  datatype Weapon = Weapon(kind: Kind, data: WeaponData, nextFireTime: FireGate.Deadline)

  /** The direction handed to a player projectile: the weapon's facing, or the zero vector. */
  datatype Dir = Facing | Zero

  /** The arguments of a player projectile's initialisation. */
  datatype ProjectileInit = ProjectileInit(dir: Dir, damage: real, speed: real, explosive: bool, radius: real)

  /** One step of a burst: spawn a projectile from the pool, or suspend for some seconds. */
  datatype BurstStep = Shot | Pause(seconds: real)

  /**
   What an attack asks of the world: nothing; a burst of pooled projectiles,
   each initialised with `init` when it has the projectile component; or a
   slash effect instantiated (not pooled) `offset` units ahead, parented to
   the player, and initialised with `init`.
   */
  datatype Attack =
    | NoAttack
    | Burst(prefab: Template, steps: seq<BurstStep>, init: ProjectileInit)
    | Slash(prefab: Template, offset: real, init: ProjectileInit)

  // ---------------------------------------------------------------------------
  // Bursts

  /** The number of projectiles in a burst: the configured count, or one when that is not positive. */
  function ShotCount(count: int): (n: nat)
    ensures n >= 1
    ensures count > 0 ==> n == count
    ensures count <= 0 ==> n == 1
  {
    if count <= 0 then 1 else count
  }

  /** The burst loop from iteration `i` of `n`: a shot, then a pause unless it is the last shot or the pause is not positive. */
  function BurstFrom(i: nat, n: nat, gap: real): (s: seq<BurstStep>)
    ensures i >= n ==> s == []
    ensures i < n ==> |s| >= n - i && s[0] == Shot
    ensures i <= n && gap <= 0.0 ==> |s| == n - i && forall k | 0 <= k < |s| :: s[k] == Shot
    decreases n - i
  {
    if i >= n then []
    else [Shot] + (if i < n - 1 && gap > 0.0 then [Pause(gap)] else []) + BurstFrom(i + 1, n, gap)
  }

  /** The whole burst of a weapon whose data asks for `count` projectiles `gap` seconds apart. */
  function BurstSteps(count: int, gap: real): (s: seq<BurstStep>)
    ensures s == BurstShape(ShotCount(count), gap)
  {
    BurstFromIsShape(0, ShotCount(count), gap);
    BurstFrom(0, ShotCount(count), gap)
  }

  /**
   The shape of a burst of `m >= 1` shots stated directly: with a positive
   gap, shots at the even positions and pauses of exactly the gap in
   between; otherwise `m` shots with no pause at all.
   */
  ghost function BurstShape(m: nat, gap: real): (s: seq<BurstStep>)
    requires m >= 1
    ensures gap > 0.0 ==> |s| == 2 * m - 1
    ensures gap <= 0.0 ==> |s| == m
  {
    if gap > 0.0 then seq(2 * m - 1, k => if k % 2 == 0 then Shot else Pause(gap))
    else seq(m, k => Shot)
  }

  /** A shape of `m >= 2` shots is one shot (and one pause, with a positive gap) followed by the shape of `m - 1` shots. */
  lemma ShapeStep(m: nat, gap: real)
    requires m >= 2
    ensures BurstShape(m, gap) == (if gap > 0.0 then [Shot, Pause(gap)] else [Shot]) + BurstShape(m - 1, gap)
  {
    var s := BurstShape(m, gap);
    var rest := BurstShape(m - 1, gap);
    if gap > 0.0 {
      forall k | 2 <= k < 2 * m - 1
        ensures s[k] == rest[k - 2]
      {
        assert (k - 2) % 2 == k % 2;
      }
      assert s == [Shot, Pause(gap)] + rest;
    } else {
      assert s == [Shot] + rest;
    }
  }

  lemma {:induction false} BurstFromIsShape(i: nat, n: nat, gap: real)
    requires i < n
    ensures BurstFrom(i, n, gap) == BurstShape(n - i, gap)
    decreases n - i
  {
    if i == n - 1 {
      assert BurstFrom(i + 1, n, gap) == [];
      assert BurstShape(1, gap) == [Shot];
    } else {
      var head: seq<BurstStep> := if gap > 0.0 then [Shot, Pause(gap)] else [Shot];
      assert BurstFrom(i, n, gap) == head + BurstFrom(i + 1, n, gap);
      BurstFromIsShape(i + 1, n, gap);
      ShapeStep(n - i, gap);
    }
  }

  /**
   A burst fires `ShotCount(count)` projectiles, always starting and ending
   with a shot; with a positive gap every consecutive pair of shots is
   separated by exactly one pause of that gap, and with a non-positive gap
   all shots come at once.
   */
  lemma BurstProperties(count: int, gap: real)
    ensures var s := BurstSteps(count, gap);
      && |s| >= 1 && s[0] == Shot && s[|s| - 1] == Shot
      && (gap > 0.0 ==> |s| == 2 * ShotCount(count) - 1
                        && forall k | 0 <= k < |s| :: s[k] == (if k % 2 == 0 then Shot else Pause(gap)))
      && (gap <= 0.0 ==> s == seq(ShotCount(count), k => Shot))
  {
  }

  // ---------------------------------------------------------------------------
  // One weapon

  /** A new behaviour component: kind by the data's melee flag, fire gate at its default of time zero. */
  function Initialize(data: WeaponData): (w: Weapon)
    ensures w.kind == Melee <==> data.isMelee
    ensures w.data == data
    ensures forall now: real | now >= 0.0 :: TryAttack(w, now).attack == AttackOf(w)
  {
    Weapon(if data.isMelee then Melee else Ranged, data, FireGate.At(0.0))
  }

  /**
   The attack itself: nothing without a prefab; a melee weapon instantiates
   a slash 1.5 units ahead that does not move, deals the weapon's damage
   and never explodes; a ranged weapon fires a burst whose projectiles carry
   the weapon's damage, speed, explosive flag and area of effect.
   */
  function AttackOf(w: Weapon): (a: Attack)
    ensures w.data.prefab.None? <==> a == NoAttack
    ensures a.Slash? <==> w.data.prefab.Some? && w.kind == Melee
    ensures a.Slash? ==>
      && a.prefab == w.data.prefab.value && a.offset == 1.5
      && a.init == ProjectileInit(Zero, w.data.damage, 0.0, false, 0.0)
    ensures a.Burst? ==>
      && a.prefab == w.data.prefab.value
      && a.init == ProjectileInit(Facing, w.data.damage, w.data.speed, w.data.isExplosive, w.data.areaOfEffect)
      && a.steps == BurstSteps(w.data.projectileCount, w.data.timeBetweenProjectiles)
  {
    match w.data.prefab
    case None => NoAttack
    case Some(p) =>
      match w.kind
      case Melee => Slash(p, 1.5, ProjectileInit(Zero, w.data.damage, 0.0, false, 0.0))
      case Ranged =>
        Burst(p, BurstSteps(w.data.projectileCount, w.data.timeBetweenProjectiles),
              ProjectileInit(Facing, w.data.damage, w.data.speed, w.data.isExplosive, w.data.areaOfEffect))
  }

  /**
   A melee attack reads only the prefab and the damage: two melee weapons
   that agree on those attack alike, whatever their speed, explosive flag,
   area of effect or burst settings.
   */
  lemma MeleeReadsPrefabAndDamageOnly(w1: Weapon, w2: Weapon)
    requires w1.kind == Melee && w2.kind == Melee
    requires w1.data.prefab == w2.data.prefab && w1.data.damage == w2.data.damage
    ensures AttackOf(w1) == AttackOf(w2)
    ensures AttackOf(w1) == if w1.data.prefab.None? then NoAttack
      else Slash(w1.data.prefab.value, 1.5, ProjectileInit(Zero, w1.data.damage, 0.0, false, 0.0))
  {
  }

  datatype Fired = Fired(weapon: Weapon, attack: Attack)

  /**
   The fire gate of a weapon: when due, attack and move the gate one period
   ahead (also when the attack does nothing for want of a prefab); when not
   due, nothing at all. Kind and data never change.
   */
  function TryAttack(w: Weapon, now: real): (r: Fired)
    ensures !FireGate.Open(w.nextFireTime, now) ==> r == Fired(w, NoAttack)
    ensures FireGate.Open(w.nextFireTime, now) ==>
      && r.weapon == w.(nextFireTime := FireGate.After(now, w.data.fireRate))
      && r.attack == AttackOf(w)
    ensures r.weapon.kind == w.kind && r.weapon.data == w.data
  {
    var g := FireGate.Try(w.nextFireTime, now, w.data.fireRate);
    if g.fired then Fired(w.(nextFireTime := g.next), AttackOf(w)) else Fired(w, NoAttack)
  }

  /**
   A weapon with a positive fire rate attacks at most once per period: after
   an attack at `t`, no attack at any time before `t + 1/fireRate`, however
   often it is tried in between.
   */
  lemma AttacksAreOnePeriodApart(w: Weapon, t: real, later: seq<real>)
    requires w.data.fireRate > 0.0 && w.data.prefab.Some?
    requires FireGate.Open(w.nextFireTime, t)
    requires forall k | 0 <= k < |later| :: later[k] < t + 1.0 / w.data.fireRate
    ensures TryAttack(w, t).attack != NoAttack
    ensures var ws := Tries(TryAttack(w, t).weapon, later);
      ws.weapon == TryAttack(w, t).weapon && forall a | a in ws.attacks :: a == NoAttack
  {
    var w1 := TryAttack(w, t).weapon;
    TriesBeforeDeadline(w1, later);
  }

  /** A weapon tried at each of the given times in turn. */
  datatype Tried = Tried(weapon: Weapon, attacks: seq<Attack>)

  function Tries(w: Weapon, times: seq<real>): (r: Tried)
    ensures |r.attacks| == |times|
    decreases times
  {
    if times == [] then Tried(w, [])
    else
      var f := TryAttack(w, times[0]);
      var rest := Tries(f.weapon, times[1..]);
      Tried(rest.weapon, [f.attack] + rest.attacks)
  }

  lemma {:induction false} TriesBeforeDeadline(w: Weapon, times: seq<real>)
    requires w.nextFireTime.At?
    requires forall k | 0 <= k < |times| :: times[k] < w.nextFireTime.time
    ensures Tries(w, times).weapon == w
    ensures forall a | a in Tries(w, times).attacks :: a == NoAttack
    decreases times
  {
    if times != [] {
      assert !FireGate.Open(w.nextFireTime, times[0]);
      TriesBeforeDeadline(w, times[1..]);
    }
  }

  /** A weapon whose fire rate is zero attacks at most once, ever: its gate never opens again. */
  lemma ZeroRateFiresOnce(w: Weapon, t: real, later: seq<real>)
    requires w.data.fireRate == 0.0
    requires FireGate.Open(w.nextFireTime, t)
    ensures TryAttack(w, t).weapon.nextFireTime == FireGate.Never
    ensures forall a | a in Tries(TryAttack(w, t).weapon, later).attacks :: a == NoAttack
  {
    TriesNeverOpen(TryAttack(w, t).weapon, later);
  }

  lemma {:induction false} TriesNeverOpen(w: Weapon, times: seq<real>)
    requires w.nextFireTime == FireGate.Never
    ensures Tries(w, times).weapon == w
    ensures forall a | a in Tries(w, times).attacks :: a == NoAttack
    decreases times
  {
    if times != [] {
      TriesNeverOpen(w, times[1..]);
    }
  }

  // ---------------------------------------------------------------------------
  // The weapon controller

  /** The controller's list of active weapons, in the order they were added. */
  datatype Rig = Rig(weapons: seq<Weapon>)

  /** Add one weapon: a new behaviour of the data's kind, appended at the end. */
  function AddWeapon(rig: Rig, data: WeaponData): (r: Rig)
    ensures |r.weapons| == |rig.weapons| + 1
    ensures r.weapons[..|rig.weapons|] == rig.weapons
    ensures r.weapons[|rig.weapons|] == Initialize(data)
  {
    Rig(rig.weapons + [Initialize(data)])
  }

  /** Start-up: every starting weapon added, in list order. */
  function Start(rig: Rig, starting: seq<WeaponData>): (r: Rig)
    ensures |r.weapons| == |rig.weapons| + |starting|
    ensures r.weapons[..|rig.weapons|] == rig.weapons
    ensures forall i | 0 <= i < |starting| :: r.weapons[|rig.weapons| + i] == Initialize(starting[i])
    decreases starting
  {
    if starting == [] then rig
    else
      var r := Start(AddWeapon(rig, starting[0]), starting[1..]);
      assert forall i | 1 <= i < |starting| :: starting[1..][i - 1] == starting[i];
      r
  }

  datatype Frame = Frame(rig: Rig, attacks: seq<Attack>)

  /** Every weapon tried once, in list order. */
  function TryAll(ws: seq<Weapon>, now: real): (r: seq<Fired>)
    ensures |r| == |ws|
    ensures forall i | 0 <= i < |ws| :: r[i] == TryAttack(ws[i], now)
  {
    seq(|ws|, i requires 0 <= i < |ws| => TryAttack(ws[i], now))
  }

  /**
   One frame of the controller. With a director present and in its calm
   phase nothing happens; otherwise (no director, or any other state) every
   weapon is tried once, in order, and the attacks come out in that order.
   */
  function Update(rig: Rig, horde: Option<HordeManager.HordeState>, now: real): (r: Frame)
    ensures horde == Some(HordeManager.CalmPhase) ==> r == Frame(rig, [])
    ensures horde != Some(HordeManager.CalmPhase) ==>
      && |r.rig.weapons| == |rig.weapons| == |r.attacks|
      && forall i | 0 <= i < |rig.weapons| ::
           Fired(r.rig.weapons[i], r.attacks[i]) == TryAttack(rig.weapons[i], now)
  {
    if horde == Some(HordeManager.CalmPhase) then Frame(rig, [])
    else
      var fs := TryAll(rig.weapons, now);
      Frame(Rig(seq(|fs|, i requires 0 <= i < |fs| => fs[i].weapon)),
            seq(|fs|, i requires 0 <= i < |fs| => fs[i].attack))
  }

  /**
   A weapon slot fires in a frame exactly when the director is not in its
   calm phase, the slot's gate is due and its weapon has a prefab.
   */
  lemma FiresIff(rig: Rig, horde: Option<HordeManager.HordeState>, now: real, i: nat)
    requires i < |rig.weapons|
    ensures var r := Update(rig, horde, now);
      (horde != Some(HordeManager.CalmPhase) && r.attacks[i] != NoAttack)
      <==> (horde != Some(HordeManager.CalmPhase)
            && FireGate.Open(rig.weapons[i].nextFireTime, now)
            && rig.weapons[i].data.prefab.Some?)
  {
  }

  /** What can happen to the controller: a weapon added (start-up or pickup), or a frame. */
  datatype RigOp = Add(data: WeaponData) | Tick(horde: Option<HordeManager.HordeState>, now: real)

  function Step(rig: Rig, op: RigOp): Rig
  {
    match op
    case Add(d) => AddWeapon(rig, d)
    case Tick(h, t) => Update(rig, h, t).rig
  }

  function Steps(rig: Rig, ops: seq<RigOp>): Rig
    decreases ops
  {
    if ops == [] then rig else Steps(Step(rig, ops[0]), ops[1..])
  }

  function Adds(ops: seq<RigOp>): nat
  {
    if ops == [] then 0 else (if ops[0].Add? then 1 else 0) + Adds(ops[1..])
  }

  /**
   Weapons are never removed or reordered: after any run of additions and
   frames, the list grew by exactly the number of additions, and every
   weapon keeps its position, kind and data.
   */
  lemma {:induction false} WeaponsAreKept(rig: Rig, ops: seq<RigOp>)
    ensures |Steps(rig, ops).weapons| == |rig.weapons| + Adds(ops)
    ensures forall i | 0 <= i < |rig.weapons| ::
      && Steps(rig, ops).weapons[i].kind == rig.weapons[i].kind
      && Steps(rig, ops).weapons[i].data == rig.weapons[i].data
    decreases ops
  {
    if ops != [] {
      var next := Step(rig, ops[0]);
      assert |next.weapons| == |rig.weapons| + (if ops[0].Add? then 1 else 0);
      assert forall i | 0 <= i < |rig.weapons| ::
        next.weapons[i].kind == rig.weapons[i].kind && next.weapons[i].data == rig.weapons[i].data;
      WeaponsAreKept(next, ops[1..]);
    }
  }
}
