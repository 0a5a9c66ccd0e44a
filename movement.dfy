/**
 * The movement controllers: Assets/Scripts/ParticipantMovementController.cs and its
 * older copy Assets/Scripts/PlayerMovementController.cs. Both declare the same fields
 * and the same AttemptMoving, word for word apart from which controller type a hit is
 * asked for, so they share one class here; the two FixedUpdate methods differ only in
 * where the input vector comes from.
 *
 * The box cast is an input: the list of hits the engine reports on the way, each with
 * the transform that was hit and, when that object carries a controller of the same
 * kind, the destination that controller has declared.
 */
module Movement {
  import opened Common
  import opened Vectors
  import opened Units

  datatype MovementMethod = Normal | TileBased

  /** One collider found by the box cast. */
  datatype Hit = Hit(transform: object, moverDestination: Option<Vec>)

  /** How far AttemptMoving looks ahead: one frame of motion when moving freely, one tile on the grid. */
  function MoveDistance(m: MovementMethod, speed: real, fixedDt: real): real {
    match m
    case Normal => FrameStep(speed, fixedDt)
    case TileBased => 1.0
  }

  /** The most a body moves in one fixed step: CurrentMovementSpeed * Time.fixedDeltaTime. */
  function FrameStep(speed: real, fixedDt: real): real {
    speed * fixedDt
  }

  /**
   * The destination a move is checked against: the declared one while it is still
   * ahead, and a fresh point one look-ahead along the direction once it is reached.
   */
  function Candidate(position: Vec, destination: Vec, direction: Vec, distance: real, mag: Vec -> real): Vec
    requires IsMagnitude(mag)
  {
    if position == destination then Add(position, Scale(Normalized(direction, mag), distance)) else destination
  }

  /** A hit blocks when its transform is not one we may pass through, or when it is a mover heading for our cell. */
  predicate Blocks(hit: Hit, whitelist: seq<object>, candidate: Vec) {
    hit.transform !in whitelist || (hit.moverDestination.Some? && hit.moverDestination.value == candidate)
  }

  predicate AbleToMove(hits: seq<Hit>, whitelist: seq<object>, candidate: Vec) {
    forall i :: 0 <= i < |hits| ==> !Blocks(hits[i], whitelist, candidate)
  }

  /**
   * The fresh candidate lies exactly one look-ahead from the current position when the
   * direction is longer than Epsilon, and is the position itself when it is not; a
   * destination still ahead is kept as it is.
   */
  lemma CandidateDistance(position: Vec, destination: Vec, direction: Vec, distance: real, mag: Vec -> real)
    requires IsMagnitude(mag)
    ensures var c := Candidate(position, destination, direction, distance, mag);
      (position != destination ==> c == destination) &&
      (position == destination && mag(direction) > Epsilon ==> SqLen(Sub(c, position)) == distance * distance) &&
      (position == destination && mag(direction) <= Epsilon ==> c == position)
  {
    if position == destination {
      var n := Normalized(direction, mag);
      var step := Scale(n, distance);
      assert Sub(Add(position, step), position) == step;
      SqLenScale(n, distance);
    }
  }

  /** The per-participant input: the touch stick for the main player with touch controls on, else the axes; AI gives none yet. */
  function ParticipantInput(control: TypeOfControl, touchEnabled: bool, isMainPlayer: bool, stick: Vec, axes: Vec): (input: Vec)
    ensures control == AI ==> input == Zero
    ensures control == Player ==> input == (if touchEnabled && isMainPlayer then stick else axes)
  {
    match control
    case Player => if touchEnabled && isMainPlayer then stick else axes
    case AI => Zero
  }

  /**
   * r is on the segment from `from` to `dest`, a fraction in [0, 1] of the way along,
   * and at most maxDelta away from `from`.
   */
  predicate SteppedWithin(from: Vec, dest: Vec, maxDelta: real, mag: Vec -> real, r: Vec)
    requires IsMagnitude(mag)
  {
    var t := MoveFraction(from, dest, maxDelta, mag);
    0.0 <= t <= 1.0 && r == Lerp(from, dest, t) && SqLen(Sub(r, from)) <= maxDelta * maxDelta
  }

  /** The step AttemptMoving takes never overshoots the destination. */
  lemma StepWithin(from: Vec, dest: Vec, maxDelta: real, mag: Vec -> real)
    requires IsMagnitude(mag) && maxDelta >= 0.0
    ensures SteppedWithin(from, dest, maxDelta, mag, MoveTowards(from, dest, maxDelta, mag))
  {
    MoveTowardsOnSegment(from, dest, maxDelta, mag);
  }

  /**
   * The foreach over the hits in AttemptMoving: it stops at the first hit that is not
   * whitelisted or is a mover whose destination is the candidate.
   */
  method ScanHits(hits: seq<Hit>, whitelist: seq<object>, candidate: Vec) returns (able: bool)
    ensures able <==> AbleToMove(hits, whitelist, candidate)
  {
    able := true;
    var i := 0;
    while i < |hits|
      invariant 0 <= i <= |hits|
      invariant able <==> AbleToMove(hits[..i], whitelist, candidate)
      invariant !able ==> !AbleToMove(hits, whitelist, candidate)
    {
      if hits[i].transform !in whitelist {
        able := false;
        break;
      }
      if hits[i].moverDestination.Some? && hits[i].moverDestination.value == candidate {
        able := false;
        break;
      }
      i := i + 1;
    }
    if able {
      assert hits[..i] == hits;
    }
  }

  class MovementController {
    const movementMethod: MovementMethod
    /** The unit's stats component (ParticipantStats, or PlayerStats on the older controller). */
    const stats: UnitStats
    /** rb2d.position */
    var position: Vec
    var destination: Vec
    var direction: Vec
    var isMoving: bool
    const defaultSpeed: real
    var currentSpeed: real
    /** transformsThatAllowCollision: our own fresh bombs, which we may walk off. */
    var whitelist: seq<object>

    /** Start: the speed is the default and the destination is where the body stands; facing down. */
    constructor Start(movementMethod: MovementMethod, stats: UnitStats, position: Vec, defaultSpeed: real)
      ensures this.movementMethod == movementMethod && this.stats == stats
      ensures this.position == position && destination == position
      ensures direction == Vec(0.0, -1.0) && !isMoving
      ensures this.defaultSpeed == defaultSpeed && currentSpeed == defaultSpeed && whitelist == []
    {
      this.movementMethod := movementMethod;
      this.stats := stats;
      this.position := position;
      destination := position;
      direction := Vec(0.0, -1.0);
      isMoving := false;
      this.defaultSpeed := defaultSpeed;
      currentSpeed := defaultSpeed;
      whitelist := [];
    }

    /**
     * What one AttemptMoving does: an empty cast clears the whitelist; the move is
     * allowed iff no hit blocks the candidate; only then does the candidate become the
     * destination; and the body steps towards the destination by one frame of speed.
     */
    twostate predicate Attempted(hits: seq<Hit>, fixedDt: real, mag: Vec -> real, able: bool)
      requires IsMagnitude(mag)
      reads this
    {
      var candidate := Candidate(old(position), old(destination), direction,
                                 MoveDistance(movementMethod, currentSpeed, fixedDt), mag);
      whitelist == (if hits == [] then [] else old(whitelist)) &&
      (able <==> AbleToMove(hits, old(whitelist), candidate)) &&
      destination == (if able then candidate else old(destination)) &&
      position == MoveTowards(old(position), destination, FrameStep(currentSpeed, fixedDt), mag)
    }

    /**
     * AttemptMoving. The step never overshoots: the new position lies on the segment
     * from the old one to the destination, at most one frame of speed away.
     */
    method AttemptMoving(hits: seq<Hit>, fixedDt: real, mag: Vec -> real) returns (able: bool)
      requires IsMagnitude(mag)
      modifies this
      ensures Attempted(hits, fixedDt, mag, able)
      ensures direction == old(direction) && isMoving == old(isMoving) && currentSpeed == old(currentSpeed)
      ensures FrameStep(currentSpeed, fixedDt) >= 0.0 ==>
        SteppedWithin(old(position), destination, FrameStep(currentSpeed, fixedDt), mag, position)
    {
      var moveDistance := MoveDistance(movementMethod, currentSpeed, fixedDt);
      if |hits| == 0 {
        whitelist := [];
      }
      var candidate := Candidate(position, destination, direction, moveDistance, mag);
      able := ScanHits(hits, whitelist, candidate);
      if able {
        destination := candidate;
      }
      var from, maxDelta := position, FrameStep(currentSpeed, fixedDt);
      position := MoveTowards(from, destination, maxDelta, mag);
      if maxDelta >= 0.0 {
        StepWithin(from, destination, maxDelta, mag);
      }
    }

    /**
     * FixedUpdate, given the input vector for this frame. A dead unit does nothing. Moving
     * freely, any input turns and attempts a move and no input stops; on the grid, input
     * is only taken once the destination is reached, and otherwise the previous
     * IsMoving keeps the attempt going.
     */
    method FixedUpdate(input: Vec, hits: seq<Hit>, fixedDt: real, mag: Vec -> real) returns (attempted: bool, able: bool)
      requires IsMagnitude(mag)
      modifies this
      ensures !stats.isAlive ==>
        !attempted && position == old(position) && destination == old(destination) &&
        direction == old(direction) && isMoving == old(isMoving) && whitelist == old(whitelist)
      ensures stats.isAlive && movementMethod == Normal ==>
        attempted == (input != Zero) && isMoving == (input != Zero) &&
        direction == (if input != Zero then input else old(direction))
      ensures stats.isAlive && movementMethod == TileBased ==>
        var reached := old(position) == old(destination);
        isMoving == (if reached then input != Zero else old(isMoving)) &&
        direction == (if reached && input != Zero then input else old(direction)) &&
        attempted == isMoving
      ensures attempted ==> Attempted(hits, fixedDt, mag, able)
      ensures attempted && FrameStep(currentSpeed, fixedDt) >= 0.0 ==>
        SteppedWithin(old(position), destination, FrameStep(currentSpeed, fixedDt), mag, position)
      ensures !attempted ==> position == old(position) && destination == old(destination) && whitelist == old(whitelist)
      ensures currentSpeed == old(currentSpeed)
    {
      attempted, able := false, false;
      if !stats.isAlive {
        return;
      }
      match movementMethod
      case Normal =>
        if input != Zero {
          direction := input;
          isMoving := true;
          able := AttemptMoving(hits, fixedDt, mag);
          attempted := true;
        } else {
          isMoving := false;
        }
      case TileBased =>
        if position == destination {
          if input != Zero {
            direction := input;
            isMoving := true;
          } else {
            isMoving := false;
          }
        }
        if isMoving {
          able := AttemptMoving(hits, fixedDt, mag);
          attempted := true;
        }
    }

    /** ParticipantMovementController.FixedUpdate: the input is the stick, the player's axes, or nothing for AI. */
    method ParticipantFixedUpdate(touchEnabled: bool, stick: Vec, axes: Vec, hits: seq<Hit>, fixedDt: real, mag: Vec -> real)
      returns (attempted: bool, able: bool)
      requires IsMagnitude(mag)
      modifies this
      ensures var input := ParticipantInput(stats.controlType, touchEnabled, stats.isMainPlayer, stick, axes);
        (!stats.isAlive ==>
           !attempted && position == old(position) && destination == old(destination) &&
           direction == old(direction) && isMoving == old(isMoving)) &&
        (stats.isAlive && movementMethod == Normal ==> attempted == (input != Zero) && isMoving == (input != Zero)) &&
        (stats.isAlive && stats.controlType == AI && movementMethod == Normal ==>
           !attempted && !isMoving && position == old(position)) &&
        (attempted ==> direction == input || movementMethod == TileBased) &&
        (attempted ==> Attempted(hits, fixedDt, mag, able))
    {
      var input := ParticipantInput(stats.controlType, touchEnabled, stats.isMainPlayer, stick, axes);
      attempted, able := FixedUpdate(input, hits, fixedDt, mag);
    }
  }
}
