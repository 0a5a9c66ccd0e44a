/**
 * Assets/Scripts/BombController.cs: a placed bomb counts down; when its timer lapses it
 * explodes its own cell and then sends four rays (up, left, down, right) of at most
 * `explosionRadius` cells. A ray stops at the first cell it cannot pass and at the
 * first bomb it meets, whose timer it halves instead of exploding it.
 *
 * The engine calls become inputs: what the raycasts meet is the map `raycast`, and
 * the two buff rolls made for a destroyed cell are `rolls(cell)`. Spawned
 * effects and pickups are returned as values instead of being instantiated.
 */
module BombController {
  import opened Common
  import opened Grid

  // ---------------------------------------------------------------------------
  // Geometry of the explosion cross
  // ---------------------------------------------------------------------------

  datatype Direction = Up | Left | Down | Right

  /** The order in which Update runs the rays. */
  const Directions: seq<Direction> := [Up, Left, Down, Right]

  function Dx(d: Direction): int {
    match d
    case Left => -1
    case Right => 1
    case _ => 0
  }

  function Dy(d: Direction): int {
    match d
    case Up => 1
    case Down => -1
    case _ => 0
  }

  /** The rotation of the effects a ray spawns. */
  function Angle(d: Direction): int {
    match d
    case Up => 90
    case Left => 180
    case Down => 270
    case Right => 0
  }

  /** The cell k steps from origin in direction d. */
  function Along(origin: Cell, d: Direction, k: int): Cell {
    (origin.0 + k * Dx(d), origin.1 + k * Dy(d))
  }

  function Abs(n: int): nat {
    if n < 0 then -n else n
  }

  /** The larger of the two coordinate distances, as ExplodeTile measures it. */
  function Chebyshev(a: Cell, b: Cell): (n: nat)
    ensures n == 0 <==> a == b
  {
    var dx := Abs(a.0 - b.0);
    var dy := Abs(a.1 - b.1);
    if dx >= dy then dx else dy
  }

  /** The cell k steps along a ray lies at distance k from the origin. */
  lemma AlongDistance(origin: Cell, d: Direction, k: nat)
    ensures Chebyshev(Along(origin, d, k), origin) == k
  {
  }

  /** The four rays never share a cell, and no ray cell is the origin. */
  lemma AlongDistinct(origin: Cell, d1: Direction, k1: int, d2: Direction, k2: int)
    requires k1 >= 1 && k2 >= 1
    ensures Along(origin, d1, k1) != origin
    ensures Along(origin, d1, k1) == Along(origin, d2, k2) <==> d1 == d2 && k1 == k2
  {
  }

  // ---------------------------------------------------------------------------
  // ExplodeTile on the map
  // ---------------------------------------------------------------------------

  /** The three explosion prefabs. */
  datatype Effect = Center | Loop | Finish

  /** The effect for a cell at `distance` from the origin. */
  function EffectFor(distance: nat, radius: int): (e: Effect)
    ensures e == Center <==> distance == 0
    ensures e == Finish <==> distance != 0 && distance == radius
  {
    if distance == 0 then Center else if distance == radius then Finish else Loop
  }

  datatype PickupKind = BuffKind | DebuffKind

  /** What ExplodeTile instantiates. */
  datatype Spawned =
    | Hazard(cell: Cell, effect: Effect, angle: int, owner: string)  // lethal, credited to the bomb's owner
    | Debris(cell: Cell, angle: int)                                  // a finish effect with its kill trigger removed
    | Pickup(cell: Cell, kind: PickupKind)                            // a random buff or debuff

  /** The two Random.Range(0, 100) draws made for a destroyed tile. */
  datatype Roll = Roll(spawn: int, kind: int)

  const PickupThreshold: int := 20
  const BuffSpawnChance: int := 75

  /** The pickup a destroyed tile drops, if any. */
  function DropFor(cell: Cell, roll: Roll): (drop: seq<Spawned>)
    ensures |drop| <= 1
    ensures |drop| == 1 <==> roll.spawn <= PickupThreshold
    ensures |drop| == 1 ==> drop[0] == Pickup(cell, if roll.kind <= BuffSpawnChance then BuffKind else DebuffKind)
  {
    if roll.spawn <= PickupThreshold then
      [Pickup(cell, if roll.kind <= BuffSpawnChance then BuffKind else DebuffKind)]
    else []
  }

  datatype TileOutcome = TileOutcome(tiles: Tiles, spawned: seq<Spawned>, goOn: bool)

  /**
   * ExplodeTile: a destructible tile is cleared, leaves non-lethal debris and maybe a
   * pickup, and ends the ray; an empty cell gets a lethal hazard owned by the bomb's
   * owner and lets the ray go on; any other tile ends the ray untouched.
   */
  function ExplodeTile(tiles: Tiles, origin: Cell, radius: int, owner: string, target: Cell, angle: int, roll: Roll)
    : (r: TileOutcome)
    ensures r.goOn <==> TileAt(tiles, target) == Empty
    ensures TileAt(tiles, target) == Destructible ==>
      r.tiles == WithTile(tiles, target, Empty) && r.spawned == [Debris(target, angle)] + DropFor(target, roll)
    ensures TileAt(tiles, target) == Empty ==>
      r.tiles == tiles && r.spawned == [Hazard(target, EffectFor(Chebyshev(target, origin), radius), angle, owner)]
    ensures TileAt(tiles, target) in {Margin, Other} ==> r.tiles == tiles && r.spawned == []
  {
    var tile := TileAt(tiles, target);
    if tile == Destructible then
      TileOutcome(WithTile(tiles, target, Empty), [Debris(target, angle)] + DropFor(target, roll), false)
    else if tile == Empty then
      TileOutcome(tiles, [Hazard(target, EffectFor(Chebyshev(target, origin), radius), angle, owner)], true)
    else
      TileOutcome(tiles, [], false)
  }

  // ---------------------------------------------------------------------------
  // The rays and the whole detonation, as functions of the map before them
  // ---------------------------------------------------------------------------

  /**
   * The raycasts' answers: raycast[(d, k)] is the bomb that the raycast from the bomb
   * towards d over distance k meets first. No entry: nothing, or a collider that is not a bomb.
   */
  type RayHits = map<(Direction, nat), BombController>

  function HitAt(raycast: RayHits, d: Direction, k: nat): Option<BombController> {
    if (d, k) in raycast then Some(raycast[(d, k)]) else None
  }

  /** A ray's effect on the map, what it spawned, and the step at which a bomb stopped it. */
  datatype RayOutcome = RayOutcome(tiles: Tiles, spawned: seq<Spawned>, stopStep: Option<nat>)

  /** The ray in direction d from step k on: raycast first, then ExplodeTile, while k <= radius. */
  function Ray(tiles: Tiles, origin: Cell, radius: int, owner: string, d: Direction, k: nat,
               raycast: RayHits, rolls: Cell -> Roll): RayOutcome
    decreases radius + 1 - k
  {
    if k > radius then RayOutcome(tiles, [], None)
    else if HitAt(raycast, d, k).Some? then RayOutcome(tiles, [], Some(k))
    else
      var target := Along(origin, d, k);
      var o := ExplodeTile(tiles, origin, radius, owner, target, Angle(d), rolls(target));
      if !o.goOn then RayOutcome(o.tiles, o.spawned, None)
      else
        var rest := Ray(o.tiles, origin, radius, owner, d, k + 1, raycast, rolls);
        RayOutcome(rest.tiles, o.spawned + rest.spawned, rest.stopStep)
  }

  /** A ray's outcome preceded by what earlier steps spawned. */
  function After(earlier: seq<Spawned>, r: RayOutcome): RayOutcome {
    RayOutcome(r.tiles, earlier + r.spawned, r.stopStep)
  }

  lemma AfterAppend(a: seq<Spawned>, b: seq<Spawned>, r: RayOutcome)
    ensures After(a, After(b, r)) == After(a + b, r)
  {
    assert a + (b + r.spawned) == (a + b) + r.spawned;
  }

  lemma RayStopped(tiles: Tiles, origin: Cell, radius: int, owner: string, d: Direction, k: nat,
                   raycast: RayHits, rolls: Cell -> Roll)
    requires k <= radius && HitAt(raycast, d, k).Some?
    ensures Ray(tiles, origin, radius, owner, d, k, raycast, rolls) == RayOutcome(tiles, [], Some(k))
  {
  }

  lemma RayEnded(tiles: Tiles, origin: Cell, radius: int, owner: string, d: Direction, k: nat,
                 raycast: RayHits, rolls: Cell -> Roll)
    requires k > radius
    ensures Ray(tiles, origin, radius, owner, d, k, raycast, rolls) == RayOutcome(tiles, [], None)
  {
  }

  /** The map after a detonation, what it spawned, where each ray met a bomb, and those bombs. */
  datatype Detonation = Detonation(tiles: Tiles, spawned: seq<Spawned>, stops: seq<Option<nat>>,
                                   chained: seq<Option<BombController>>)

  /** The origin cell, then the rays in the order of Directions, each on the map the previous left. */
  function Detonate(tiles: Tiles, origin: Cell, radius: int, owner: string,
                    raycast: RayHits, rolls: Cell -> Roll): (det: Detonation)
    ensures |det.stops| == 4 && |det.chained| == 4
    ensures forall i :: 0 <= i < 4 ==> det.chained[i] == Stopper(Directions[i], det.stops[i], raycast)
  {
    var o := ExplodeTile(tiles, origin, radius, owner, origin, 0, rolls(origin));
    var up := Ray(o.tiles, origin, radius, owner, Up, 1, raycast, rolls);
    var left := Ray(up.tiles, origin, radius, owner, Left, 1, raycast, rolls);
    var down := Ray(left.tiles, origin, radius, owner, Down, 1, raycast, rolls);
    var right := Ray(down.tiles, origin, radius, owner, Right, 1, raycast, rolls);
    Detonation(right.tiles, o.spawned + up.spawned + left.spawned + down.spawned + right.spawned,
               [up.stopStep, left.stopStep, down.stopStep, right.stopStep],
               [Stopper(Up, up.stopStep, raycast), Stopper(Left, left.stopStep, raycast),
                Stopper(Down, down.stopStep, raycast), Stopper(Right, right.stopStep, raycast)])
  }

  // ---------------------------------------------------------------------------
  // What a ray does
  // ---------------------------------------------------------------------------

  /**
   * A ray changes at most one cell: either the map is as before, or exactly one
   * destructible cell on the ray, within the radius, has become empty.
   */
  lemma {:induction false} RayChangesAtMostOne(tiles: Tiles, origin: Cell, radius: int, owner: string, d: Direction, k: nat,
                                               raycast: RayHits, rolls: Cell -> Roll)
    ensures var r := Ray(tiles, origin, radius, owner, d, k, raycast, rolls);
      r.tiles == tiles ||
      exists j :: k <= j <= radius && TileAt(tiles, Along(origin, d, j)) == Destructible &&
                  r.tiles == WithTile(tiles, Along(origin, d, j), Empty)
    decreases radius + 1 - k
  {
    if k <= radius && HitAt(raycast, d, k).None? {
      var target := Along(origin, d, k);
      var o := ExplodeTile(tiles, origin, radius, owner, target, Angle(d), rolls(target));
      if o.goOn {
        RayChangesAtMostOne(o.tiles, origin, radius, owner, d, k + 1, raycast, rolls);
      }
    }
  }

  /** A ray stopped by a bomb was stopped by a raycast that hit one, within the radius. */
  lemma {:induction false} RayStopIsHit(tiles: Tiles, origin: Cell, radius: int, owner: string, d: Direction, k: nat,
                                        raycast: RayHits, rolls: Cell -> Roll)
    ensures var r := Ray(tiles, origin, radius, owner, d, k, raycast, rolls);
      r.stopStep.Some? ==> k <= r.stopStep.value <= radius && HitAt(raycast, d, r.stopStep.value).Some?
    decreases radius + 1 - k
  {
    if k <= radius && HitAt(raycast, d, k).None? {
      var target := Along(origin, d, k);
      var o := ExplodeTile(tiles, origin, radius, owner, target, Angle(d), rolls(target));
      if o.goOn {
        RayStopIsHit(o.tiles, origin, radius, owner, d, k + 1, raycast, rolls);
      }
    }
  }

  /**
   * A spawn of the ray in direction d from step k is sound: it lies on the ray at its
   * distance from the origin, between k and the radius; a hazard is on a cell that was
   * empty, is owned by the bomb's owner and is not a centre; debris and pickups are on
   * a cell that was destructible.
   */
  predicate SoundSpawn(s: Spawned, tiles: Tiles, origin: Cell, radius: int, owner: string, d: Direction, k: nat) {
    var j := Chebyshev(s.cell, origin);
    k <= j <= radius && s.cell == Along(origin, d, j) &&
    (s.Hazard? ==> s.owner == owner && s.effect != Center && TileAt(tiles, s.cell) == Empty) &&
    (!s.Hazard? ==> TileAt(tiles, s.cell) == Destructible)
  }

  /** Everything a ray spawns is sound. */
  lemma {:induction false} RaySpawnsSound(tiles: Tiles, origin: Cell, radius: int, owner: string, d: Direction, k: nat,
                                          raycast: RayHits, rolls: Cell -> Roll)
    requires k >= 1
    ensures var r := Ray(tiles, origin, radius, owner, d, k, raycast, rolls);
      forall s :: s in r.spawned ==> SoundSpawn(s, tiles, origin, radius, owner, d, k)
    decreases radius + 1 - k
  {
    if k <= radius && HitAt(raycast, d, k).None? {
      var target := Along(origin, d, k);
      var o := ExplodeTile(tiles, origin, radius, owner, target, Angle(d), rolls(target));
      AlongDistance(origin, d, k);
      var r := Ray(tiles, origin, radius, owner, d, k, raycast, rolls);
      assert forall s :: s in o.spawned ==> s.cell == target;
      if o.goOn {
        assert o.tiles == tiles && o.spawned == [Hazard(target, EffectFor(k, radius), Angle(d), owner)];
        var rest := Ray(tiles, origin, radius, owner, d, k + 1, raycast, rolls);
        assert r.spawned == o.spawned + rest.spawned;
        RaySpawnsSound(tiles, origin, radius, owner, d, k + 1, raycast, rolls);
        forall s | s in r.spawned
          ensures SoundSpawn(s, tiles, origin, radius, owner, d, k)
        {
          if s !in o.spawned {
            assert SoundSpawn(s, tiles, origin, radius, owner, d, k + 1);
          }
        }
      } else {
        assert r.spawned == o.spawned;
      }
    }
  }

  /** The hazard an open ray lays at step j: a loop, or the finish at the radius. */
  function OpenHazard(origin: Cell, radius: int, owner: string, d: Direction, j: nat): Spawned {
    Hazard(Along(origin, d, j), if j == radius then Finish else Loop, Angle(d), owner)
  }

  /** A step over an empty cell with no bomb lays its hazard and hands the map, unchanged, to the next step. */
  lemma OpenStep(tiles: Tiles, origin: Cell, radius: int, owner: string, d: Direction, k: nat,
                 raycast: RayHits, rolls: Cell -> Roll)
    requires 1 <= k <= radius
    requires TileAt(tiles, Along(origin, d, k)) == Empty && HitAt(raycast, d, k).None?
    ensures var rest := Ray(tiles, origin, radius, owner, d, k + 1, raycast, rolls);
      Ray(tiles, origin, radius, owner, d, k, raycast, rolls) ==
      RayOutcome(rest.tiles, [OpenHazard(origin, radius, owner, d, k)] + rest.spawned, rest.stopStep)
  {
    AlongDistance(origin, d, k);
  }

  /** The hazards an open ray lays from step k to the radius, in order. */
  function OpenHazards(origin: Cell, radius: int, owner: string, d: Direction, k: nat): seq<Spawned>
    decreases radius + 1 - k
  {
    if k > radius then [] else [OpenHazard(origin, radius, owner, d, k)] + OpenHazards(origin, radius, owner, d, k + 1)
  }

  /** OpenHazards holds one hazard per step from k to the radius, the i-th at step k + i. */
  lemma {:induction false} OpenHazardsAt(origin: Cell, radius: int, owner: string, d: Direction, k: nat)
    requires k <= radius + 1
    ensures var s := OpenHazards(origin, radius, owner, d, k);
      |s| == radius + 1 - k && forall i :: 0 <= i < |s| ==> s[i] == OpenHazard(origin, radius, owner, d, k + i)
    decreases radius + 1 - k
  {
    if k <= radius {
      OpenHazardsAt(origin, radius, owner, d, k + 1);
      var s := OpenHazards(origin, radius, owner, d, k);
      var rest := OpenHazards(origin, radius, owner, d, k + 1);
      forall i | 1 <= i < |s|
        ensures s[i] == OpenHazard(origin, radius, owner, d, k + i)
      {
        assert s[i] == rest[i - 1];
        assert k + 1 + (i - 1) == k + i;
      }
    }
  }

  /** A ray over empty cells and no bombs keeps the map, is not stopped and lays OpenHazards. */
  lemma {:induction false} OpenRayLays(tiles: Tiles, origin: Cell, radius: int, owner: string, d: Direction, k: nat,
                                       raycast: RayHits, rolls: Cell -> Roll)
    requires 1 <= k <= radius + 1
    requires forall j :: k <= j <= radius ==> TileAt(tiles, Along(origin, d, j)) == Empty && HitAt(raycast, d, j).None?
    ensures Ray(tiles, origin, radius, owner, d, k, raycast, rolls) ==
            RayOutcome(tiles, OpenHazards(origin, radius, owner, d, k), None)
    decreases radius + 1 - k
  {
    if k <= radius {
      OpenStep(tiles, origin, radius, owner, d, k, raycast, rolls);
      OpenRayLays(tiles, origin, radius, owner, d, k + 1, raycast, rolls);
    } else {
      RayEnded(tiles, origin, radius, owner, d, k, raycast, rolls);
    }
  }

  /**
   * A ray over empty cells and no bombs leaves the map as it is and lays one lethal
   * hazard on every cell from step k to the radius, the last one a finish.
   */
  lemma {:induction false} OpenRay(tiles: Tiles, origin: Cell, radius: int, owner: string, d: Direction, k: nat,
                raycast: RayHits, rolls: Cell -> Roll)
    requires 1 <= k <= radius + 1
    requires forall j :: k <= j <= radius ==> TileAt(tiles, Along(origin, d, j)) == Empty && HitAt(raycast, d, j).None?
    ensures var r := Ray(tiles, origin, radius, owner, d, k, raycast, rolls);
      r.tiles == tiles && r.stopStep == None && |r.spawned| == radius + 1 - k &&
      forall i :: 0 <= i < |r.spawned| ==> r.spawned[i] == OpenHazard(origin, radius, owner, d, k + i)
  {
    OpenRayLays(tiles, origin, radius, owner, d, k, raycast, rolls);
    OpenHazardsAt(origin, radius, owner, d, k);
  }

  // ---------------------------------------------------------------------------
  // What a detonation does
  // ---------------------------------------------------------------------------

  /** The origin cell or a cell on one of the four rays within the radius. */
  ghost predicate OnCross(origin: Cell, radius: int, c: Cell) {
    c == origin || exists d: Direction, j :: 1 <= j <= radius && c == Along(origin, d, j)
  }

  /** A ray changes only the cells of the cross. */
  lemma RayStaysOnCross(tiles: Tiles, origin: Cell, radius: int, owner: string, d: Direction,
                        raycast: RayHits, rolls: Cell -> Roll)
    ensures var r := Ray(tiles, origin, radius, owner, d, 1, raycast, rolls);
      forall c :: TileAt(r.tiles, c) != TileAt(tiles, c) ==> OnCross(origin, radius, c)
  {
    RayChangesAtMostOne(tiles, origin, radius, owner, d, 1, raycast, rolls);
  }

  /** A detonation changes only cells of its cross: nothing off the two axes or beyond the radius. */
  lemma DetonationStaysOnCross(tiles: Tiles, origin: Cell, radius: int, owner: string,
                               raycast: RayHits, rolls: Cell -> Roll)
    ensures var det := Detonate(tiles, origin, radius, owner, raycast, rolls);
      forall c :: TileAt(det.tiles, c) != TileAt(tiles, c) ==> OnCross(origin, radius, c)
  {
    var o := ExplodeTile(tiles, origin, radius, owner, origin, 0, rolls(origin));
    var up := Ray(o.tiles, origin, radius, owner, Up, 1, raycast, rolls);
    var left := Ray(up.tiles, origin, radius, owner, Left, 1, raycast, rolls);
    var down := Ray(left.tiles, origin, radius, owner, Down, 1, raycast, rolls);
    RayStaysOnCross(o.tiles, origin, radius, owner, Up, raycast, rolls);
    RayStaysOnCross(up.tiles, origin, radius, owner, Left, raycast, rolls);
    RayStaysOnCross(left.tiles, origin, radius, owner, Down, raycast, rolls);
    RayStaysOnCross(down.tiles, origin, radius, owner, Right, raycast, rolls);
  }

  /** Every stop of a detonation's rays is a raycast that hit a bomb. */
  lemma DetonationStopsAreHits(tiles: Tiles, origin: Cell, radius: int, owner: string,
                               raycast: RayHits, rolls: Cell -> Roll)
    ensures var det := Detonate(tiles, origin, radius, owner, raycast, rolls);
      forall i :: 0 <= i < 4 && det.stops[i].Some? ==>
        1 <= det.stops[i].value <= radius && HitAt(raycast, Directions[i], det.stops[i].value).Some?
  {
    var o := ExplodeTile(tiles, origin, radius, owner, origin, 0, rolls(origin));
    var up := Ray(o.tiles, origin, radius, owner, Up, 1, raycast, rolls);
    var left := Ray(up.tiles, origin, radius, owner, Left, 1, raycast, rolls);
    var down := Ray(left.tiles, origin, radius, owner, Down, 1, raycast, rolls);
    RayStopIsHit(o.tiles, origin, radius, owner, Up, 1, raycast, rolls);
    RayStopIsHit(up.tiles, origin, radius, owner, Left, 1, raycast, rolls);
    RayStopIsHit(left.tiles, origin, radius, owner, Down, 1, raycast, rolls);
    RayStopIsHit(down.tiles, origin, radius, owner, Right, 1, raycast, rolls);
  }

  // ---------------------------------------------------------------------------
  // Chain reactions: how often a bomb's timer is halved
  // ---------------------------------------------------------------------------

  /** t halved n times. */
  function Halved(t: real, n: nat): real {
    if n == 0 then t else Halved(t, n - 1) / 2.0
  }

  /** The bomb that stopped a ray, if a bomb did. */
  function Stopper(d: Direction, stop: Option<nat>, raycast: RayHits): Option<BombController> {
    if stop.Some? then HitAt(raycast, d, stop.value) else None
  }

  /** How many entries of chained are bomb b. */
  function Count(chained: seq<Option<BombController>>, b: BombController): (n: nat)
    ensures n <= |chained|
  {
    if chained == [] then 0
    else Count(chained[..|chained| - 1], b) + if chained[|chained| - 1] == Some(b) then 1 else 0
  }

  /** Extending the prefix by entry i counts bomb b once more exactly when that entry is b. */
  lemma CountSnoc(chained: seq<Option<BombController>>, i: nat)
    requires i < |chained|
    ensures forall b :: Count(chained[..i + 1], b) == Count(chained[..i], b) + if chained[i] == Some(b) then 1 else 0
  {
    assert chained[..i + 1][..i] == chained[..i];
  }

  /** One more halving. */
  lemma HalvedStep(t: real, n: nat)
    ensures Halved(t, n + 1) == Halved(t, n) / 2.0
  {
  }

  /** Halving never takes a positive timer to zero or below: a chained bomb is hurried, never set off. */
  lemma {:induction false} HalvedPositive(t: real, n: nat)
    requires t > 0.0
    ensures 0.0 < Halved(t, n) <= t
  {
    if n > 0 {
      HalvedPositive(t, n - 1);
    }
  }

  // ---------------------------------------------------------------------------
  // The buff prefab pick (the do-while loops), over a given stream of draws
  // ---------------------------------------------------------------------------

  function KindWord(kind: PickupKind): string {
    match kind
    case BuffKind => "Buff"
    case DebuffKind => "Debuff"
  }

  /**
   * The prefab the rejection loop settles on: the first drawn index whose tag contains
   * the kind's word, every draw before it rejected. None when the given draws run out
   * first (the loop would go on).
   */
  function PickPrefab(tags: seq<string>, draws: seq<nat>, kind: PickupKind): (r: Option<nat>)
    requires forall i :: 0 <= i < |draws| ==> draws[i] < |tags|
    ensures r.Some? ==> r.value < |tags| && Contains(tags[r.value], KindWord(kind)) && r.value in draws
    ensures r.None? <==> forall i :: 0 <= i < |draws| ==> !Contains(tags[draws[i]], KindWord(kind))
    ensures forall k ::
      (0 <= k < |draws| && Contains(tags[draws[k]], KindWord(kind)) &&
       forall i :: 0 <= i < k ==> !Contains(tags[draws[i]], KindWord(kind))) ==> r == Some(draws[k])
  {
    if draws == [] then None
    else if Contains(tags[draws[0]], KindWord(kind)) then Some(draws[0])
    else
      var r := PickPrefab(tags, draws[1..], kind);
      assert forall i :: 1 <= i < |draws| ==> draws[i] == draws[1..][i - 1];
      r
  }

  // ---------------------------------------------------------------------------
  // The bomb object
  // ---------------------------------------------------------------------------

  class BombController {
    var owner: string
    var originCell: Cell
    var explosionRadius: int
    var timer: real
    /** Destroy(gameObject) has been called. */
    var exploded: bool

    /** A freshly instantiated bomb; Start records the cell it sits in. */
    constructor Start(position: Cell)
      ensures originCell == position && timer == 2.0 && explosionRadius == 1 && owner == "" && !exploded
    {
      owner := "";
      originCell := position;
      explosionRadius := 1;
      timer := 2.0;
      exploded := false;
    }

    /** SpeedUpDetonation: the timer is halved, not zeroed. */
    method SpeedUpDetonation()
      modifies this
      ensures timer == old(timer) / 2.0
      ensures owner == old(owner) && originCell == old(originCell) && explosionRadius == old(explosionRadius)
      ensures exploded == old(exploded)
    {
      timer := timer / 2.0;
    }

    /** HitsAnotherSameTag: a raycast that met another bomb hurries it and reports true. */
    method HitsAnotherSameTag(hit: Option<BombController>) returns (same: bool)
      requires hit != Some(this)
      modifies if hit.Some? then {hit.value} else {}
      ensures same <==> hit.Some?
      ensures same ==> hit.value.timer == old(hit.value.timer) / 2.0 && hit.value.owner == old(hit.value.owner)
      ensures same ==> hit.value.exploded == old(hit.value.exploded) && hit.value.originCell == old(hit.value.originCell)
      ensures same ==> hit.value.explosionRadius == old(hit.value.explosionRadius)
    {
      if hit.Some? {
        hit.value.SpeedUpDetonation();
        return true;
      }
      return false;
    }

    /** ExplodeTile on the shared tilemap: the map write and the spawns of the function ExplodeTile. */
    method ExplodeTileAt(tilemap: Tilemap, target: Cell, angle: int, roll: Roll) returns (goOn: bool, spawned: seq<Spawned>)
      modifies tilemap
      ensures TileOutcome(tilemap.tiles, spawned, goOn) ==
              ExplodeTile(old(tilemap.tiles), originCell, explosionRadius, owner, target, angle, roll)
    {
      var tile := tilemap.GetTile(target);
      var distance := Chebyshev(target, originCell);
      var effect := if distance == 0 then Center else if distance == explosionRadius then Finish else Loop;
      if tile == Destructible {
        tilemap.SetTile(target, Empty);
        spawned := [Debris(target, angle)];
        if roll.spawn <= PickupThreshold {
          spawned := spawned + [Pickup(target, if roll.kind <= BuffSpawnChance then BuffKind else DebuffKind)];
        }
        goOn := false;
      } else if tile == Empty {
        spawned := [Hazard(target, effect, angle, owner)];
        goOn := true;
      } else {
        spawned := [];
        goOn := false;
      }
    }

    /** Fields of the other bombs that a ray never touches. */
    twostate predicate OthersKept(others: set<BombController>)
      reads others
    {
      forall b :: b in others ==>
        b.owner == old(b.owner) && b.originCell == old(b.originCell) &&
        b.explosionRadius == old(b.explosionRadius) && b.exploded == old(b.exploded)
    }
    /**
     * One pass of a ray's loop at step k: a bomb hit by the raycast stops the ray there;
     * otherwise ExplodeTile runs on the cell and says whether the ray goes on.
     */
    method RayStep(tilemap: Tilemap, d: Direction, k: nat, raycast: RayHits,
                   rolls: Cell -> Roll) returns (more: seq<Spawned>, goOn: bool, stop: Option<nat>)
      requires k <= explosionRadius
      modifies tilemap
      ensures var here := Ray(old(tilemap.tiles), originCell, explosionRadius, owner, d, k, raycast, rolls);
        if goOn then here == After(more, Ray(tilemap.tiles, originCell, explosionRadius, owner, d, k + 1, raycast, rolls))
        else here == RayOutcome(tilemap.tiles, more, stop)
    {
      if HitAt(raycast, d, k).Some? {
        RayStopped(tilemap.tiles, originCell, explosionRadius, owner, d, k, raycast, rolls);
        return [], false, Some(k);
      }
      var target := Along(originCell, d, k);
      goOn, more := ExplodeTileAt(tilemap, target, Angle(d), rolls(target));
      stop := None;
    }

    /**
     * RayStep with what the ray spawned so far: the whole ray is what was spawned so far
     * followed by the rest of the ray, before and after the step.
     */
    method RayAccumulate(tilemap: Tilemap, d: Direction, k: nat, raycast: RayHits, rolls: Cell -> Roll,
                         ghost whole: RayOutcome, spawned: seq<Spawned>)
      returns (spawned': seq<Spawned>, goOn: bool, stop: Option<nat>)
      requires k <= explosionRadius
      requires whole == After(spawned, Ray(tilemap.tiles, originCell, explosionRadius, owner, d, k, raycast, rolls))
      modifies tilemap
      ensures goOn ==> whole == After(spawned', Ray(tilemap.tiles, originCell, explosionRadius, owner, d, k + 1, raycast, rolls))
      ensures !goOn ==> whole == RayOutcome(tilemap.tiles, spawned', stop)
    {
      var more;
      more, goOn, stop := RayStep(tilemap, d, k, raycast, rolls);
      spawned' := spawned + more;
      if goOn {
        AfterAppend(spawned, more, Ray(tilemap.tiles, originCell, explosionRadius, owner, d, k + 1, raycast, rolls));
      }
    }

    /** The map side of one of the four `for` loops of Update: raycast, then ExplodeTile, step by step. */
    method RayLoop(tilemap: Tilemap, d: Direction, raycast: RayHits, rolls: Cell -> Roll)
      returns (spawned: seq<Spawned>, stopStep: Option<nat>)
      modifies tilemap
      ensures RayOutcome(tilemap.tiles, spawned, stopStep) ==
              Ray(old(tilemap.tiles), originCell, explosionRadius, owner, d, 1, raycast, rolls)
    {
      ghost var whole := Ray(tilemap.tiles, originCell, explosionRadius, owner, d, 1, raycast, rolls);
      spawned, stopStep := [], None;
      var k := 1;
      while k <= explosionRadius
        invariant k >= 1
        invariant whole == After(spawned, Ray(tilemap.tiles, originCell, explosionRadius, owner, d, k, raycast, rolls))
        decreases explosionRadius + 1 - k
      {
        var goOn, stop;
        spawned, goOn, stop := RayAccumulate(tilemap, d, k, raycast, rolls, whole, spawned);
        if !goOn {
          return spawned, stop;
        }
        k := k + 1;
      }
      RayEnded(tilemap.tiles, originCell, explosionRadius, owner, d, k, raycast, rolls);
    }

    /** SpeedUpDetonation on each bomb that stopped a ray, once per ray it stopped. */
    method SpeedUpAll(chained: seq<Option<BombController>>, others: set<BombController>)
      requires this !in others
      requires forall i :: 0 <= i < |chained| && chained[i].Some? ==> chained[i].value in others
      modifies others
      ensures forall b :: b in others ==> b.timer == Halved(old(b.timer), Count(chained, b))
      ensures OthersKept(others)
    {
      ghost var start := map b | b in others :: b.timer;
      var i := 0;
      while i < |chained|
        invariant 0 <= i <= |chained|
        invariant forall b :: b in others ==> b.timer == Halved(start[b], Count(chained[..i], b))
        invariant OthersKept(others)
      {
        HurryNext(chained, i, others, start);
        i := i + 1;
      }
      assert chained[..i] == chained;
    }

    /** One pass of SpeedUpAll's loop: entry i of chained counts once more for the bomb it names. */
    method HurryNext(chained: seq<Option<BombController>>, i: nat, others: set<BombController>,
                     ghost start: map<BombController, real>)
      requires i < |chained| && this !in others
      requires chained[i].Some? ==> chained[i].value in others
      requires forall b :: b in others ==> b in start && b.timer == Halved(start[b], Count(chained[..i], b))
      modifies others
      ensures forall b :: b in others ==> b.timer == Halved(start[b], Count(chained[..i + 1], b))
      ensures OthersKept(others)
    {
      CountSnoc(chained, i);
      SpeedUpStep(chained[i], others);
      forall b | b in others
        ensures b.timer == Halved(start[b], Count(chained[..i + 1], b))
      {
        HalvedStep(start[b], Count(chained[..i], b));
      }
    }

    /** One entry of SpeedUpAll: only the bomb that entry names, if any, is hurried. */
    method SpeedUpStep(hit: Option<BombController>, others: set<BombController>)
      requires this !in others && (hit.Some? ==> hit.value in others)
      modifies others
      ensures forall b :: b in others ==> b.timer == if hit == Some(b) then old(b.timer) / 2.0 else old(b.timer)
      ensures OthersKept(others)
    {
      var same := HitsAnotherSameTag(hit);
    }

    /**
     * The explosion Update triggers: the origin cell, then the four rays in the order
     * of Directions on the shared map, as Detonate describes; each bomb that stopped
     * a ray has its timer halved once per such ray. The source halves a bomb's timer
     * inside the ray's loop test; halving timers and writing the map are independent,
     * so the model writes the map first and halves the timers after.
     */
    method Explode(tilemap: Tilemap, raycast: RayHits,
                   others: set<BombController>, rolls: Cell -> Roll) returns (spawned: seq<Spawned>)
      requires this !in others
      requires raycast.Values <= others
      modifies tilemap, others
      ensures var det := Detonate(old(tilemap.tiles), originCell, explosionRadius, owner, raycast, rolls);
        tilemap.tiles == det.tiles && spawned == det.spawned &&
        forall b :: b in others ==> b.timer == Halved(old(b.timer), Count(det.chained, b))
      ensures OthersKept(others)
    {
      ghost var det := Detonate(tilemap.tiles, originCell, explosionRadius, owner, raycast, rolls);
      var goOn, atOrigin := ExplodeTileAt(tilemap, originCell, 0, rolls(originCell));
      var up, upStop := RayLoop(tilemap, Up, raycast, rolls);
      var left, leftStop := RayLoop(tilemap, Left, raycast, rolls);
      var down, downStop := RayLoop(tilemap, Down, raycast, rolls);
      var right, rightStop := RayLoop(tilemap, Right, raycast, rolls);
      spawned := atOrigin + up + left + down + right;
      var chained := [Stopper(Up, upStop, raycast), Stopper(Left, leftStop, raycast),
                      Stopper(Down, downStop, raycast), Stopper(Right, rightStop, raycast)];
      assert chained == det.chained;
      SpeedUpAll(chained, others);
    }

    /**
     * Update: the timer runs down by dt; on the tick it reaches zero or below the bomb
     * explodes (see Explode) and is destroyed. On any other tick nothing else changes.
     */
    method Update(dt: real, tilemap: Tilemap, raycast: RayHits,
                  others: set<BombController>, rolls: Cell -> Roll) returns (spawned: seq<Spawned>)
      requires !exploded && this !in others
      requires raycast.Values <= others
      modifies this, tilemap, others
      ensures timer == old(timer) - dt
      ensures exploded <==> timer <= 0.0
      ensures owner == old(owner) && originCell == old(originCell) && explosionRadius == old(explosionRadius)
      ensures OthersKept(others)
      ensures timer > 0.0 ==>
        tilemap.tiles == old(tilemap.tiles) && spawned == [] && forall b :: b in others ==> b.timer == old(b.timer)
      ensures timer <= 0.0 ==>
        var det := Detonate(old(tilemap.tiles), originCell, explosionRadius, owner, raycast, rolls);
        tilemap.tiles == det.tiles && spawned == det.spawned &&
        forall b :: b in others ==> b.timer == Halved(old(b.timer), Count(det.chained, b))
    {
      timer := timer - dt;
      if timer > 0.0 {
        return [];
      }
      spawned := Explode(tilemap, raycast, others, rolls);
      exploded := true;
    }
  }
}
