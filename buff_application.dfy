/**
 * Assets/Scripts/BuffApplication.cs: what a picked-up buff or debuff does to the
 * participant that carries it, and what its destruction undoes. The coroutine
 * EnumerableStart is split at its WaitForSeconds: Start runs up to the wait, and Resume
 * is the rest, which the engine runs two seconds later unless the object is gone.
 */
module BuffApplication {
  import opened Common
  import opened Units
  import opened Movement
  import opened ParticipantAction

  datatype BuffAction =
    | IncreaseBombCount
    | IncreaseBombRadius
    | Speed
    | Slow
    | DenyBombPlacing
    | UncontrollableBombPlacing

  /** The participant fields buffs write: on its action controller and its movement controller. */
  datatype Effects = Effects(maxBombs: int, radius: int, speed: real, canPlace: bool, uncontrollable: bool)

  /** The caps of the two counting buffs. */
  const MaxBombCount: int := 8
  const MaxRadius: int := 5

  /** The extra time an uncontrollable-placing debuff waits before it starts, and adds to its lifetime. */
  const WaitTime: real := 2.0

  /** The net effect of picking a buff up (for the uncontrollable debuff, once its wait is over). */
  function Applied(action: BuffAction, e: Effects): Effects {
    match action
    case IncreaseBombCount => if e.maxBombs < MaxBombCount then e.(maxBombs := e.maxBombs + 1) else e
    case IncreaseBombRadius => if e.radius < MaxRadius then e.(radius := e.radius + 1) else e
    case Speed => e.(speed := e.speed * 2.0)
    case Slow => e.(speed := e.speed / 2.0)
    case DenyBombPlacing => e.(canPlace := false)
    case UncontrollableBombPlacing => e.(uncontrollable := true)
  }

  /** What OnDestroy writes back: the speed buffs restore the default speed, not the speed before them. */
  function Reverted(action: BuffAction, e: Effects, defaultSpeed: real): Effects {
    match action
    case Speed => e.(speed := defaultSpeed)
    case Slow => e.(speed := defaultSpeed)
    case DenyBombPlacing => e.(canPlace := true)
    case UncontrollableBombPlacing => e.(uncontrollable := false)
    case _ => e
  }

  /** The two counting buffs have no duration: they are destroyed as soon as they are applied, and nothing is undone. */
  predicate IsInstant(action: BuffAction) {
    action == IncreaseBombCount || action == IncreaseBombRadius
  }

  /** Buff events in the order the engine delivers them to one participant. */
  datatype Event = Apply(action: BuffAction) | Revert(reverted: BuffAction)

  function Run(events: seq<Event>, e: Effects, defaultSpeed: real): Effects
    decreases |events|
  {
    if events == [] then e
    else
      var last := events[|events| - 1];
      var before := Run(events[..|events| - 1], e, defaultSpeed);
      match last
      case Apply(a) => Applied(a, before)
      case Revert(a) => Reverted(a, before, defaultSpeed)
  }

  predicate IsSpeedEvent(ev: Event) {
    match ev
    case Apply(a) => a == Speed || a == Slow
    case Revert(a) => a == Speed || a == Slow
  }

  /** The counts only grow, one step at a time, and never past their caps. */
  lemma {:induction false} RunKeepsCaps(events: seq<Event>, e: Effects, defaultSpeed: real)
    requires 1 <= e.maxBombs <= MaxBombCount && 1 <= e.radius <= MaxRadius
    ensures var r := Run(events, e, defaultSpeed);
      e.maxBombs <= r.maxBombs <= MaxBombCount && e.radius <= r.radius <= MaxRadius
    decreases |events|
  {
    if events != [] {
      RunKeepsCaps(events[..|events| - 1], e, defaultSpeed);
    }
  }

  /**
   * Reverts are absolute: whatever speed buffs were stacked or overlapped before, once a
   * speed buff has faded and no speed event followed, the speed is exactly the default.
   */
  lemma {:induction false} RevertedSpeedIsDefault(events: seq<Event>, k: nat, e: Effects, defaultSpeed: real)
    requires k < |events| && events[k].Revert? && IsSpeedEvent(events[k])
    requires forall j :: k < j < |events| ==> !IsSpeedEvent(events[j])
    ensures Run(events, e, defaultSpeed).speed == defaultSpeed
    decreases |events|
  {
    var init := events[..|events| - 1];
    if k < |events| - 1 {
      assert forall j :: k < j < |init| ==> init[j] == events[j];
      RevertedSpeedIsDefault(init, k, e, defaultSpeed);
      assert !IsSpeedEvent(events[|events| - 1]);
    }
  }

  /** With a positive default and start speed, no sequence of buffs, debuffs and fades stops a participant. */
  lemma {:induction false} RunSpeedPositive(events: seq<Event>, e: Effects, defaultSpeed: real)
    requires e.speed > 0.0 && defaultSpeed > 0.0
    ensures Run(events, e, defaultSpeed).speed > 0.0
    decreases |events|
  {
    if events != [] {
      RunSpeedPositive(events[..|events| - 1], e, defaultSpeed);
    }
  }

  /** A speed buff and a slow debuff held together cancel out. */
  lemma SpeedThenSlow(e: Effects, defaultSpeed: real)
    ensures Run([Apply(Speed), Apply(Slow)], e, defaultSpeed).speed == e.speed
  {
    var evs := [Apply(Speed), Apply(Slow)];
    assert evs[..1][..0] == [];
  }

  /** Two overlapping placing bans: when the first fades, placing is allowed again although the second is still on. */
  lemma OverlappingDenyLifts(e: Effects, defaultSpeed: real)
    ensures Run([Apply(DenyBombPlacing), Apply(DenyBombPlacing), Revert(DenyBombPlacing)], e, defaultSpeed).canPlace
  {
    var evs := [Apply(DenyBombPlacing), Apply(DenyBombPlacing), Revert(DenyBombPlacing)];
    assert evs[..2][..1][..0] == [];
  }

  /** The effect fields of a participant, read off its two controllers. */
  function EffectsOf(placer: ParticipantActionController, mover: MovementController): Effects
    reads placer, mover
  {
    Effects(placer.maximumBombCount, placer.explosionRadius, mover.currentSpeed,
            placer.canPlaceBombs, placer.uncontrollableBombPlacing)
  }

  class BuffApplication {
    const action: BuffAction
    /** The parent participant's ParticipantActionController and ParticipantMovementController. */
    const placer: ParticipantActionController
    const mover: MovementController
    /** The buff's own Lifetime component; the counting buffs have none. */
    const lifetime: Option<Lifetime>
    /** Destroy(gameObject) has been called from Start. */
    var destroyed: bool
    /** The coroutine is suspended in its two-second wait. */
    var waiting: bool

    constructor (action: BuffAction, placer: ParticipantActionController, mover: MovementController, lifetime: Option<Lifetime>)
      ensures this.action == action && this.placer == placer && this.mover == mover && this.lifetime == lifetime
      ensures !destroyed && !waiting
    {
      this.action := action;
      this.placer := placer;
      this.mover := mover;
      this.lifetime := lifetime;
      destroyed := false;
      waiting := false;
    }

    function LifetimeObjects(): set<object>
      reads this
    {
      if lifetime.Some? then {lifetime.value} else {}
    }

    /** The buff's game object is gone: destroyed by Start, or by its Lifetime running out. */
    predicate Gone()
      reads this, LifetimeObjects()
    {
      destroyed || (lifetime.Some? && lifetime.value.destroyed)
    }

    /**
     * EnumerableStart up to its wait. Every kind but the uncontrollable debuff takes
     * effect at once, and the counting ones destroy the buff; the debuff only lengthens
     * its lifetime by the wait (reading the lifetime throws when there is none).
     */
    method Start() returns (threw: bool)
      requires placer.Valid() && !destroyed && !waiting
      modifies this, placer, mover, LifetimeObjects()
      ensures placer.Valid()
      ensures threw <==> action == UncontrollableBombPlacing && lifetime.None?
      ensures action != UncontrollableBombPlacing ==>
        EffectsOf(placer, mover) == Applied(action, old(EffectsOf(placer, mover))) && !waiting &&
        destroyed == IsInstant(action)
      ensures action == UncontrollableBombPlacing ==>
        EffectsOf(placer, mover) == old(EffectsOf(placer, mover)) && !destroyed &&
        (lifetime.Some? ==> waiting && lifetime.value.seconds == old(lifetime.value.seconds) + WaitTime &&
                            lifetime.value.destroyed == old(lifetime.value.destroyed))
      ensures action != UncontrollableBombPlacing && lifetime.Some? ==>
        lifetime.value.seconds == old(lifetime.value.seconds) && lifetime.value.destroyed == old(lifetime.value.destroyed)
      ensures placer.bombs == old(placer.bombs)
      ensures mover.position == old(mover.position) && mover.destination == old(mover.destination)
      ensures mover.direction == old(mover.direction) && mover.isMoving == old(mover.isMoving)
      ensures mover.whitelist == old(mover.whitelist)
    {
      threw := false;
      match action
      case IncreaseBombCount =>
        if placer.maximumBombCount < MaxBombCount {
          placer.maximumBombCount := placer.maximumBombCount + 1;
        }
        destroyed := true;
      case IncreaseBombRadius =>
        if placer.explosionRadius < MaxRadius {
          placer.explosionRadius := placer.explosionRadius + 1;
        }
        destroyed := true;
      case Speed =>
        mover.currentSpeed := mover.currentSpeed * 2.0;
      case Slow =>
        mover.currentSpeed := mover.currentSpeed / 2.0;
      case DenyBombPlacing =>
        placer.canPlaceBombs := false;
      case UncontrollableBombPlacing =>
        if lifetime.None? {
          return true;
        }
        lifetime.value.seconds := lifetime.value.seconds + WaitTime;
        waiting := true;
    }

    /** The wait is over: unless the buff is already gone, uncontrollable placing starts now. */
    method Resume()
      modifies this, placer
      ensures !waiting && destroyed == old(destroyed)
      ensures old(waiting) && !old(Gone()) ==>
        EffectsOf(placer, mover) == Applied(UncontrollableBombPlacing, old(EffectsOf(placer, mover)))
      ensures !(old(waiting) && !old(Gone())) ==> EffectsOf(placer, mover) == old(EffectsOf(placer, mover))
      ensures placer.bombs == old(placer.bombs) && placer.Valid() == old(placer.Valid())
    {
      if waiting && !Gone() {
        placer.uncontrollableBombPlacing := true;
      }
      waiting := false;
    }

    /**
     * OnDestroy. With the parent still there, the timed kinds are undone: the speed
     * buffs reset the speed to the default, the bans are lifted. The counting buffs
     * are never undone, and without a parent (a scene change) nothing is.
     */
    method OnDestroy(hasParent: bool)
      modifies placer, mover
      ensures hasParent ==> EffectsOf(placer, mover) == Reverted(action, old(EffectsOf(placer, mover)), mover.defaultSpeed)
      ensures !hasParent || IsInstant(action) ==> EffectsOf(placer, mover) == old(EffectsOf(placer, mover))
      ensures placer.bombs == old(placer.bombs) && placer.Valid() == old(placer.Valid())
      ensures mover.position == old(mover.position) && mover.destination == old(mover.destination)
      ensures mover.direction == old(mover.direction) && mover.isMoving == old(mover.isMoving)
      ensures mover.whitelist == old(mover.whitelist)
    {
      if !hasParent {
        return;
      }
      match action
      case Speed =>
        mover.currentSpeed := mover.defaultSpeed;
      case Slow =>
        mover.currentSpeed := mover.defaultSpeed;
      case DenyBombPlacing =>
        placer.canPlaceBombs := true;
      case UncontrollableBombPlacing =>
        placer.uncontrollableBombPlacing := false;
      case _ =>
    }
  }
}
