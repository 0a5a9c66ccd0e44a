/**
 * The unit-side components the core scripts write to: UnitStats with the fields of
 * its ParticipantStats and PlayerStats subclasses, the Lifetime countdown that times
 * buffs, and BuffPickup's explosion flag. A destroyed object is a `destroyed` flag
 * (Unity's `== null` after Destroy).
 */
module Units {

  /** Which UnitStats subclass the object carries. */
  datatype StatsKind = PlainUnit | PlayerUnit | ParticipantUnit

  datatype TypeOfControl = Player | AI

  class UnitStats {
    const kind: StatsKind
    var isAlive: bool
    var isInvulnerable: bool
    /** PlayerStats / ParticipantStats.committedSuicide. */
    var committedSuicide: bool
    /** ParticipantStats.participantNumber (PlayerStats.playerNumber on the older player). */
    var participantNumber: int
    var localParticipantNumber: int
    const controlType: TypeOfControl
    const isMainPlayer: bool

    /** A unit as spawned: alive, not yet credited with a suicide. */
    constructor (kind: StatsKind, isInvulnerable: bool, controlType: TypeOfControl, isMainPlayer: bool)
      ensures this.kind == kind && this.isInvulnerable == isInvulnerable
      ensures this.controlType == controlType && this.isMainPlayer == isMainPlayer
      ensures isAlive && !committedSuicide
    {
      this.kind := kind;
      this.isInvulnerable := isInvulnerable;
      this.controlType := controlType;
      this.isMainPlayer := isMainPlayer;
      isAlive := true;
      committedSuicide := false;
      participantNumber := 0;
      localParticipantNumber := 0;
    }
  }

  /** Lifetime: a countdown in seconds that destroys its object when it runs out. */
  class Lifetime {
    var seconds: real
    var destroyed: bool

    constructor (seconds: real)
      ensures this.seconds == seconds && !destroyed
    {
      this.seconds := seconds;
      destroyed := false;
    }

    /** FixedUpdate: one fixed step off the countdown; the object goes once it is at or below zero. */
    method FixedUpdate(fixedDt: real)
      modifies this
      ensures seconds == old(seconds) - fixedDt
      ensures destroyed == (old(destroyed) || seconds <= 0.0)
    {
      seconds := seconds - fixedDt;
      if seconds <= 0.0 {
        destroyed := true;
      }
    }
  }

  /** BuffPickup: only the flag KillTrigger sets, and whether the pickup is gone. */
  class BuffPickup {
    var destroyedByExplosion: bool
    var destroyed: bool

    constructor ()
      ensures !destroyedByExplosion && !destroyed
    {
      destroyedByExplosion := false;
      destroyed := false;
    }
  }
}
