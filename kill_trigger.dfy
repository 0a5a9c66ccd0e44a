/**
 * Assets/Scripts/KillTrigger.cs: the trigger on every lethal explosion effect. Touching
 * a living, vulnerable unit of a team kills it (and marks a suicide when the unit is
 * the bomb's owner); touching a buff or debuff pickup destroys the pickup.
 */
module KillTrigger {
  import opened Common
  import opened Units
  import BombController

  /** The collider that entered the trigger, with the components GetComponent finds on it. */
  datatype Collider = Collider(tag: string, name: string, stats: Option<UnitStats>, pickup: Option<BuffPickup>)

  /** Which branch a contact took; Threw is a GetComponent that came back null. */
  datatype Contact = Killed(suicide: bool) | PickupDestroyed | NoEffect | Threw

  /** The objects a contact may write. */
  function Touched(c: Collider): set<object> {
    (if c.stats.Some? then {c.stats.value} else {}) + (if c.pickup.Some? then {c.pickup.value} else {})
  }

  /** The two tests of the handler, in the order they are made. */
  predicate IsTeam(tag: string) { Contains(tag, "Team") }

  predicate IsPickupTag(tag: string) { Contains(ToLower(tag), "buff") }

  class KillTrigger {
    /** The name of the participant whose bomb spawned this effect. */
    var owner: string

    constructor (owner: string)
      ensures this.owner == owner
    {
      this.owner := owner;
    }

    /**
     * OnTriggerEnter2D. The kill branch needs the team tag and a living, vulnerable
     * unit; otherwise a tag containing "buff" in any case marks and destroys the
     * pickup. The suicide flag lives on PlayerStats, so a victim named like the
     * owner without that component throws after it has been killed.
     */
    method OnTriggerEnter2D(c: Collider) returns (outcome: Contact)
      modifies Touched(c)
      ensures IsTeam(c.tag) && c.stats.None? ==> outcome == Threw
      ensures IsTeam(c.tag) && c.stats.Some? && old(c.stats.value.isAlive) && !old(c.stats.value.isInvulnerable) ==>
        var u := c.stats.value;
        !u.isAlive && u.isInvulnerable == old(u.isInvulnerable) &&
        (c.name != owner ==> outcome == Killed(false) && u.committedSuicide == old(u.committedSuicide)) &&
        (c.name == owner && u.kind == PlayerUnit ==> outcome == Killed(true) && u.committedSuicide) &&
        (c.name == owner && u.kind != PlayerUnit ==> outcome == Threw && u.committedSuicide == old(u.committedSuicide))
      ensures outcome != PickupDestroyed && c.pickup.Some? ==>
        c.pickup.value.destroyed == old(c.pickup.value.destroyed) &&
        c.pickup.value.destroyedByExplosion == old(c.pickup.value.destroyedByExplosion)
      ensures !(IsTeam(c.tag) && (c.stats.None? || (old(c.stats.value.isAlive) && !old(c.stats.value.isInvulnerable)))) ==>
        (c.stats.Some? ==> c.stats.value.isAlive == old(c.stats.value.isAlive) &&
                           c.stats.value.committedSuicide == old(c.stats.value.committedSuicide)) &&
        (IsPickupTag(c.tag) && c.pickup.None? ==> outcome == Threw) &&
        (IsPickupTag(c.tag) && c.pickup.Some? ==>
          outcome == PickupDestroyed && c.pickup.value.destroyedByExplosion && c.pickup.value.destroyed) &&
        (!IsPickupTag(c.tag) ==> outcome == NoEffect)
    {
      if IsTeam(c.tag) {
        if c.stats.None? {
          return Threw;
        }
        var u := c.stats.value;
        if u.isAlive && !u.isInvulnerable {
          u.isAlive := false;
          if c.name == owner {
            if u.kind != PlayerUnit {
              return Threw;
            }
            u.committedSuicide := true;
            return Killed(true);
          }
          return Killed(false);
        }
      }
      if IsPickupTag(c.tag) {
        if c.pickup.None? {
          return Threw;
        }
        c.pickup.value.destroyedByExplosion := true;
        c.pickup.value.destroyed := true;
        return PickupDestroyed;
      }
      return NoEffect;
    }
  }

  // ---------------------------------------------------------------------------
  // Every pickup a bomb drops is one an explosion can destroy
  // ---------------------------------------------------------------------------

  /**
   * A pickup prefab is chosen by its tag containing "Buff" or "Debuff"; either way the
   * tag passes the trigger's case-insensitive "buff" test, so explosions destroy pickups.
   */
  lemma DroppedPickupsAreDestroyable(tag: string, kind: BombController.PickupKind)
    requires Contains(tag, BombController.KindWord(kind))
    ensures IsPickupTag(tag)
  {
    ContainsToLower(tag, BombController.KindWord(kind));
    if kind == BombController.BuffKind {
      assert ToLower("Buff") == "buff";
    } else {
      assert ToLower("Debuff") == "de" + "buff";
      ContainsSuffix(ToLower(tag), "de", "buff");
    }
  }
}
