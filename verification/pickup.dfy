/**
 An upgrade pickup: when the player touches it, the pickup's weapon (if it
 has one) is added to the player's weapon controller, the wave director (if
 there is one) is told, and the pickup's collider is switched off so that it
 cannot trigger twice.

 The director's handler may raise a null-reference exception (a pickup with
 no upgrade, touched during the calm phase); the exception leaves the rest
 of the trigger handler unexecuted, so the collider stays on.
 */
module UpgradePickup {
  import opened Common
  import Weapons
  import HordeManager

  datatype Pickup = Pickup(upgrade: Option<Weapons.WeaponData>, colliderEnabled: bool)

  /** What touched the pickup: its tag, whether it has the player component, and that player's weapon controller. */
  datatype Toucher = Toucher(tag: Tag, hasPlayer: bool, weapons: Option<Weapons.Rig>)

  /** The wave director found in the scene, with the inputs its handler draws on. */
  datatype Director = Director(cfg: HordeManager.HordeConfig, horde: HordeManager.Horde, env: HordeManager.Env)

  datatype Outcome = Outcome(
    pickup: Pickup,
    weapons: Option<Weapons.Rig>,
    director: Option<Director>,
    directorEffects: seq<HordeManager.Effect>,
    thrown: bool)                      // the director's handler raised an exception

  /** The touch is acted on: an enabled collider, touched by a player-tagged object with a player and a weapon controller. */
  predicate Effective(p: Pickup, t: Toucher)
  {
    p.colliderEnabled && t.tag == PlayerTag && t.hasPlayer && t.weapons.Some?
  }

  function Unchanged(p: Pickup, t: Toucher, d: Option<Director>): Outcome
  {
    Outcome(p, t.weapons, d, [], false)
  }

  function OnTriggerEnter(p: Pickup, t: Toucher, d: Option<Director>): (r: Outcome)
    // anything else than an effective touch changes nothing
    ensures !Effective(p, t) ==> r == Unchanged(p, t, d)
    // an effective touch grants the weapon, whatever the director does
    ensures Effective(p, t) ==>
      r.weapons == Some(if p.upgrade.Some? then Weapons.AddWeapon(t.weapons.value, p.upgrade.value) else t.weapons.value)
    // the handler throws exactly for a pickup without upgrade during the calm phase
    ensures r.thrown <==> Effective(p, t) && d.Some? && d.value.horde.state == HordeManager.CalmPhase && p.upgrade.None?
    // the collider goes off exactly when an effective touch runs to the end
    ensures r.pickup == p.(colliderEnabled := p.colliderEnabled && (!Effective(p, t) || r.thrown))
    // the director changes only through its handler, and only in the calm phase with an upgrade
    ensures r.director.Some? <==> d.Some?
    ensures d.Some? && !(Effective(p, t) && d.value.horde.state == HordeManager.CalmPhase && p.upgrade.Some?) ==>
      r.director == d && r.directorEffects == []
    ensures d.Some? && Effective(p, t) && d.value.horde.state == HordeManager.CalmPhase && p.upgrade.Some? ==>
      var s := HordeManager.OnUpgradePicked(d.value.cfg, d.value.horde, false, d.value.env);
      s.Some? && r.director == Some(d.value.(horde := s.value.horde)) && r.directorEffects == s.value.effects
  {
    if !Effective(p, t) then Unchanged(p, t, d)
    else
      var rig := t.weapons.value;
      var rig' := if p.upgrade.Some? then Weapons.AddWeapon(rig, p.upgrade.value) else rig;
      match d
      case None => Outcome(p.(colliderEnabled := false), Some(rig'), None, [], false)
      case Some(dir) =>
        match HordeManager.OnUpgradePicked(dir.cfg, dir.horde, p.upgrade.None?, dir.env)
        case None => Outcome(p, Some(rig'), d, [], true)
        case Some(s) => Outcome(p.(colliderEnabled := false), Some(rig'), Some(dir.(horde := s.horde)), s.effects, false)
  }

  /**
   The collider prevents a double pick: once a touch has run to the end, any
   later touch, by anyone, changes nothing.
   */
  lemma PickedOnce(p: Pickup, t: Toucher, d: Option<Director>, t2: Toucher, d2: Option<Director>)
    requires Effective(p, t)
    requires !OnTriggerEnter(p, t, d).thrown
    ensures OnTriggerEnter(OnTriggerEnter(p, t, d).pickup, t2, d2) == Unchanged(OnTriggerEnter(p, t, d).pickup, t2, d2)
  {
  }

  /**
   A pickup with no upgrade touched during the calm phase never switches
   off: every touch throws again and leaves director, weapons and pickup as
   they were.
   */
  lemma {:induction false} NullUpgradeStaysArmed(p: Pickup, t: Toucher, d: Director, n: nat)
    requires Effective(p, t) && p.upgrade.None? && d.horde.state == HordeManager.CalmPhase
    ensures Touches(p, t, d, n) == p
    decreases n
  {
    if n > 0 {
      var r := OnTriggerEnter(p, t, Some(d));
      assert r.thrown && r.pickup == p && r.director == Some(d);
      NullUpgradeStaysArmed(p, t, d, n - 1);
    }
  }

  /** The pickup after `n` touches by the same toucher, the director in the same state each time. */
  function Touches(p: Pickup, t: Toucher, d: Director, n: nat): Pickup
    decreases n
  {
    if n == 0 then p
    else Touches(OnTriggerEnter(p, t, Some(d)).pickup, t, d, n - 1)
  }

  /**
   Outside the calm phase a pickup still grants its weapon and switches off,
   and the director ignores it (no new wave starts).
   */
  lemma PickedOutsideCalmPhase(p: Pickup, t: Toucher, d: Director)
    requires Effective(p, t) && p.upgrade.Some? && d.horde.state != HordeManager.CalmPhase
    ensures var r := OnTriggerEnter(p, t, Some(d));
      && r.weapons == Some(Weapons.AddWeapon(t.weapons.value, p.upgrade.value))
      && !r.pickup.colliderEnabled
      && r.director == Some(d)
      && r.directorEffects == []
  {
  }

  /**
   In the calm phase, picking an upgrade both grants the weapon and starts
   the next wave, clearing every offered pickup.
   */
  lemma PickedInCalmPhase(p: Pickup, t: Toucher, d: Director)
    requires Effective(p, t) && p.upgrade.Some? && d.horde.state == HordeManager.CalmPhase
    ensures var r := OnTriggerEnter(p, t, Some(d));
      && r.weapons == Some(Weapons.AddWeapon(t.weapons.value, p.upgrade.value))
      && r.director.Some?
      && r.director.value.horde.currentWave == d.horde.currentWave + 1
      && r.director.value.horde.activePickups == []
      && r.director.value.horde.state != HordeManager.CalmPhase
      && HordeManager.WaveStarted(d.horde.currentWave + 1) in r.directorEffects
  {
    var s := HordeManager.OnUpgradePicked(d.cfg, d.horde, false, d.env);
    assert s.value.effects[|d.horde.activePickups|] == HordeManager.WaveStarted(d.horde.currentWave + 1);
  }
}
