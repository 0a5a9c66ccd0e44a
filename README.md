# Stick-it: a verified model of the Bomberman core

Stick-it is a Unity Bomberman game. Participants walk a tile grid and place bombs.
A bomb's countdown lapses and it detonates along four axis rays. Each ray clears
at most one destructible tile, lays lethal hazards on open cells, and stops at walls
and at other bombs. A bomb that a ray reaches goes off sooner, because its timer is
halved. A cleared tile may drop a buff or a debuff. A pickup changes the bomb count,
the radius, the speed or the right to place bombs, for a while or for good. The
match controller builds the arena from a tilemap, admits up to four participants
into corner spawn zones, removes eliminated participants, and runs the countdown
with announcer cues. The menus change the lobby settings. The interface holders
format the clock, switch menus and rewrite button captions.

This project models that core in Dafny and proves what the scripts promise about it.

- An object the scripts update in place is a class: bomb, placer, movement
  controller, buff, game manager, interface holder, button.
  Its methods carry `modifies` frames and state their new state.
- A computation is a function, and its properties are lemmas.
- A loop in the scripts is a `while` loop in the model, proved against a
  specification function. Examples: the four detonation rays, the bomb-list pruning,
  the hit scan, the rectangle scan, the fill, the zone clearing, the roster loop, the
  caption rewrite and `ToGUIName`.

Dependence on the engine is taken as given values:

- the tilemap is a `map<Cell, Tile>`, and a missing key is the null tile;
- random rolls are a function of the cell, or given draws;
- raycast and box-cast results are given hits, or a "blocked" flag;
- input axes are given vectors;
- the vector magnitude is an oracle `mag` with `mag(v)² == |v|²`, `mag(v) >= 0`;
- `Time.deltaTime` is a parameter.

`playableArea` is a `BoundsInt`: a position and a size, each of which may go negative
on an axis. Its `min` and `max` setters and getters behave as Unity's do. Per axis, the
min setter keeps the old max and moves the position; the max setter keeps the position
and moves position + size; the getters take the smaller and the larger of position and
position + size. The scan of a margin frame sets `min` to the top left corner and `max`
to the bottom right one, and the getters then read back the frame's rectangle.

Unity's "a destroyed object compares equal to null" is a `destroyed` (or `exploded`)
flag on the object. Two objects that are both still referenced compare by instance ID,
destroyed or not, so `List.Remove` takes out the entry of that very object. Where a script would throw (a null dereference, an index out of
range, a negative `Substring` length), the model returns a `threw` outcome, and the
rest of the call does not happen.

Two generations of the scripts are modelled side by side. The newer ones live under
`Interface/`: the networked `GameManager`, the dictionary-based `InterfaceHolder` and
`ClickableButton`. The older ones sit at the top level: the offline `GameManager` and
the name-searching `InterfaceHolder`. They share the match logic in module `Match`,
and both movement controllers share module `Movement`.

A few facts about the code that the model keeps as written:

- the drop roll is `Random.Range(0, 100) <= 20`, so a drop happens on 21 of 100
  values, and the debuff/buff split is `<= 75`;
- the prefab choice loops until a tag matches and has no attempt cap;
- the per-frame roster loop can throw (see Findings) and does not isolate faults.

## Model

| member | source | states |
|---|---|---|
| Grid.WithTile | Assets/Scripts/BombController.cs:79 | Writing a tile changes that cell only; every other cell reads as before |
| Grid.Tilemap.SetTile | Assets/Scripts/BombController.cs:79 | The tilemap after SetTile is the old map with exactly that cell rewritten |
| Grid.CellOfCenter | Assets/Scripts/ParticipantActionController.cs:52 | The world centre of a cell lies in that same cell, so a bomb dropped at the centre of the body's cell has that cell as its origin |
| Vectors.Normalized | Assets/Scripts/ParticipantMovementController.cs:70 | Above Unity's 1e-5 magnitude threshold the direction is scaled to unit length; at or below it, it is the zero vector |
| Vectors.MoveFraction | Assets/Scripts/ParticipantMovementController.cs:98 | The fraction of the way moved is in [0, 1], and it is 1 exactly when the target is within reach |
| Vectors.MoveTowards | Assets/Scripts/ParticipantMovementController.cs:98 | Vector2.MoveTowards returns the target when it is within maxDelta, and otherwise a point along the direction to it |
| Vectors.MoveTowardsFar | Assets/Scripts/ParticipantMovementController.cs:98 | When the target is out of reach, the step has length exactly maxDelta, towards the target |
| Vectors.MoveTowardsOnSegment | Assets/Scripts/ParticipantMovementController.cs:98 | The result lies on the segment from the position to the target, never past it, and no farther than maxDelta from the start |
| Common.IndexOf | Assets/Scripts/Interface/GameManager.cs:303 | String.IndexOf: the first position where the pattern starts, or -1 exactly when it occurs nowhere |
| Common.IndexOfChar | Assets/Scripts/InterfaceHolder.cs:103 | IndexOf(char): the first occurrence, or -1 exactly when the character is absent |
| Common.ContainsIndexOf | Assets/Scripts/Interface/GameManager.cs:303 | Contains holds exactly when IndexOf is non-negative |
| Common.ToLower | Assets/Scripts/KillTrigger.cs:21 | ToLower keeps the length and maps each character to its lower case (ASCII letters only) |
| Common.ContainsToLower | Assets/Scripts/KillTrigger.cs:21 | Lower-casing both sides keeps a substring match, so the test for "buff" on a "Buff"/"Debuff" tag succeeds |
| Common.ParseNatToString | Assets/Scripts/Interface/InterfaceHolder.cs:77 | int.ToString of a natural number parses back to that number |
| Units.UnitStats.constructor | Assets/Scripts/UnitStats.cs:9-10 | A unit is spawned alive, with its invulnerability as authored, and not yet credited with a suicide |
| Units.Lifetime.FixedUpdate | Assets/Scripts/Lifetime.cs:10-15 | Each fixed step takes the step off the countdown, and the object is destroyed once the countdown is at or below zero |
| Units.BuffPickup.constructor | Assets/Scripts/BuffPickup.cs:8 | A pickup starts without the explosion flag and is not destroyed |
| BombController.Chebyshev | Assets/Scripts/BombController.cs:66-69 | The distance between cells is the larger axis difference; it is 0 exactly at the origin |
| BombController.AlongDistance | Assets/Scripts/BombController.cs:133-136 | The k-th cell of a ray is at distance k from the origin |
| BombController.AlongDistinct | Assets/Scripts/BombController.cs:133-136 | Distinct steps of the rays are distinct cells, and no ray cell is the origin |
| BombController.EffectFor | Assets/Scripts/BombController.cs:66-74 | The effect is the centre exactly at distance 0, the finish exactly at distance equal to a positive radius, and the loop otherwise |
| BombController.DropFor | Assets/Scripts/BombController.cs:89-95 | A pickup drops exactly when the first roll is at most 20; it is a buff exactly when the second roll is at most 75 |
| BombController.ExplodeTile | Assets/Scripts/BombController.cs:61-119 | The ray goes on exactly on an empty cell. Destructible: the cell becomes empty and gets non-lethal debris plus the rolled drop. Empty: the map is unchanged and one lethal hazard with the bomb's owner and a distance-based effect appears. Any other tile: nothing changes |
| BombController.Detonate | Assets/Scripts/BombController.cs:131-136 | A detonation reports one stop and one chained entry per direction, in the order up, left, down, right; a ray's chained bomb is the raycast hit at its stop, and there is none when the ray was not stopped by a bomb |
| BombController.RayChangesAtMostOne | Assets/Scripts/BombController.cs:131-136 | A ray clears at most one cell, which was destructible and lies on the ray within the radius; every other cell keeps its tile |
| BombController.RayStopIsHit | Assets/Scripts/BombController.cs:43-56 | When a ray stops because of a bomb, the stop is within the radius and is a cell where the raycast reported a same-tag bomb |
| BombController.RaySpawnsSound | Assets/Scripts/BombController.cs:77-116 | Everything a ray spawns lies on the ray within the radius. Hazards are on empty cells, carry the bomb's owner, and are never a centre effect. Debris and pickups are on cells that were destructible |
| BombController.OpenRay | Assets/Scripts/BombController.cs:111-116 | On an all-empty ray with no bomb in the way, the ray lays exactly one hazard per cell up to the radius, the last one a finish, and leaves the map unchanged |
| BombController.OpenRayLays | Assets/Scripts/BombController.cs:111-116 | On an all-empty ray with no bomb in the way, the ray is never stopped, keeps the map and lays the reference sequence OpenHazards |
| BombController.OpenHazardsAt | Assets/Scripts/BombController.cs:111-116 | The reference sequence holds one hazard per step up to the radius, each on its own step, the one at the radius a finish |
| BombController.RayStaysOnCross | Assets/Scripts/BombController.cs:133-136 | A ray changes cells only on its own axis within the radius |
| BombController.DetonationStaysOnCross | Assets/Scripts/BombController.cs:131-136 | A whole detonation changes only the origin and cells on the four axes within the radius |
| BombController.DetonationStopsAreHits | Assets/Scripts/BombController.cs:133-136 | Every bomb a detonation chains is at a raycast hit on one of its four rays |
| BombController.HalvedPositive | Assets/Scripts/BombController.cs:142-145 | A chained bomb with a positive timer is hurried, never zeroed: after any number of halvings its timer stays positive and no larger than before |
| BombController.PickPrefab | Assets/Scripts/BombController.cs:95-104 | The chosen prefab is the first drawn one whose tag contains "Buff" (or "Debuff"); there is none exactly when no draw matches |
| BombController.BombController.Start | Assets/Scripts/BombController.cs:12-17 | A new bomb sits in its origin cell with a 2-second timer and radius 1, and has not exploded |
| BombController.BombController.SpeedUpDetonation | Assets/Scripts/BombController.cs:142-145 | The timer is halved and nothing else changes |
| BombController.BombController.HitsAnotherSameTag | Assets/Scripts/BombController.cs:43-56 | It reports a hit exactly when the raycast met a same-tag bomb, and then that bomb's timer is halved |
| BombController.BombController.ExplodeTileAt | Assets/Scripts/BombController.cs:61-119 | The imperative tile explosion does to the tilemap what ExplodeTile describes, and returns its verdict |
| BombController.BombController.RayLoop | Assets/Scripts/BombController.cs:133-136 | One directional for loop leaves the map and the spawns that the Ray specification gives |
| BombController.BombController.SpeedUpAll | Assets/Scripts/BombController.cs:52 | Each bomb the rays reached has its timer halved once per time it was reached |
| BombController.BombController.Explode | Assets/Scripts/BombController.cs:130-138 | The tilemap and the spawns are those of Detonate, every chained bomb's timer is halved as often as a ray reached it, and the other bombs keep every other field |
| BombController.BombController.Update | Assets/Scripts/BombController.cs:122-140 | The timer drops by the frame time, and the bomb detonates exactly when the new timer is at or below zero. Otherwise nothing else changes |
| ParticipantAction.KeepExactly | Assets/Scripts/ParticipantActionController.cs:82-86 | Filtering keeps exactly the entries not in the removed set, and never lengthens the list |
| ParticipantAction.LiveExactly | Assets/Scripts/ParticipantActionController.cs:82-86 | The live list holds exactly the bombs that have not exploded, and is no longer than the input |
| ParticipantAction.SkipPruneKeepsSecondNull | Assets/Scripts/ParticipantActionController.cs:82-86 | For two exploded bombs side by side, the loop as written removes the first and keeps the second |
| ParticipantAction.ParticipantActionController.Start | Assets/Scripts/ParticipantActionController.cs:20-23 | The placer starts with an empty bomb list, placing allowed, no forced placing, radius 1 and cap 1 |
| ParticipantAction.ParticipantActionController.PruneAsWritten | Assets/Scripts/ParticipantActionController.cs:82-86 | The pruning loop as the script writes it: RemoveAt, then i++ regardless. The result is the SkipPrune function, and no other field changes |
| ParticipantAction.ParticipantActionController.Prune | Assets/Scripts/ParticipantActionController.cs:82-86 | The corrected pruning loop leaves exactly the non-exploded bombs, in their order |
| ParticipantAction.SkipPruneFilter | Assets/Scripts/ParticipantActionController.cs:82-86 | From any index on, the pruning loop as written equals SkipFilter: the entry right after a removed one is kept unchecked, and every other entry is kept exactly when it has not exploded |
| ParticipantAction.SkipFilterAllLive | Assets/Scripts/ParticipantActionController.cs:82-86 | SkipFilter leaves no exploded bomb exactly when no two exploded bombs sit side by side |
| ParticipantAction.SkipFilterKeep | Assets/Scripts/ParticipantActionController.cs:82-86 | SkipFilter removes only exploded bombs: the live bombs are those of the input, in order, and the result is no longer than the input |
| ParticipantAction.SkipPruneLive | Assets/Scripts/ParticipantActionController.cs:82-86 | For every list, the loop as written keeps every live bomb in order and drops only exploded ones; it leaves exactly the live bombs exactly when no two exploded bombs are adjacent |
| ParticipantAction.ParticipantActionController.Update | Assets/Scripts/ParticipantActionController.cs:44-87 | A bomb is placed exactly when the placement guard holds and the path is clear. It sits in the body's cell, with the current radius, the participant's name as owner and a 2-second timer. It is appended to the movement whitelist. The list is then what the pruning loop as written leaves of the old list plus the new bomb: the same live bombs, at most one more entry, and the cap invariant holds |
| BuffApplication.RunKeepsCaps | Assets/Scripts/BuffApplication.cs:43-57 | Over any sequence of buffs, debuffs and fades, the bomb count and the radius only grow and stay within 8 and 5 |
| BuffApplication.RevertedSpeedIsDefault | Assets/Scripts/BuffApplication.cs:104-111 | Once a speed buff has faded and no speed event followed, the speed is exactly the default, however the buffs were stacked |
| BuffApplication.RunSpeedPositive | Assets/Scripts/BuffApplication.cs:59-67 | With positive speeds, no sequence of buffs and fades brings the speed to zero or below |
| BuffApplication.SpeedThenSlow | Assets/Scripts/BuffApplication.cs:59-67 | A speed buff and a slow debuff held together cancel out |
| BuffApplication.OverlappingDenyLifts | Assets/Scripts/BuffApplication.cs:114-117 | With two overlapping placing bans, the first fade re-enables placing although the second ban is still held |
| BuffApplication.BuffApplication.constructor | Assets/Scripts/BuffApplication.cs:26-31 | A buff starts neither destroyed nor waiting |
| BuffApplication.BuffApplication.Start | Assets/Scripts/BuffApplication.cs:33-89 | It throws exactly for the uncontrollable debuff without a Lifetime. Other kinds take effect at once (count and radius capped, speed doubled or halved, placing banned), and only the counting buffs destroy themselves. The uncontrollable debuff changes no effect yet: it adds 2 s to its lifetime and waits. The bomb list and the mover's position, destination, direction, moving flag and whitelist stay |
| BuffApplication.BuffApplication.Resume | Assets/Scripts/BuffApplication.cs:81-82 | After the wait, uncontrollable placing is switched on exactly when the buff was waiting and is not gone; otherwise no effect changes |
| BuffApplication.BuffApplication.OnDestroy | Assets/Scripts/BuffApplication.cs:91-125 | With a parent, the timed kinds are reverted: speed to the default, ban lifted, forced placing off. Without a parent, or for the counting buffs, nothing changes. The bomb list and the mover's position, destination, direction, moving flag and whitelist stay |
| KillTrigger.KillTrigger.constructor | Assets/Scripts/KillTrigger.cs:5 | The trigger carries the given owner name |
| KillTrigger.KillTrigger.OnTriggerEnter2D | Assets/Scripts/KillTrigger.cs:7-26 | The kill branch applies to a "Team" collider: an alive, vulnerable unit is killed, with a suicide exactly when its name is the owner's; a missing PlayerStats throws. A dead or invulnerable unit is unchanged. Otherwise a pickup tag, tested as "buff" in lower case, marks the pickup and destroys it. At most one branch acts |
| KillTrigger.DroppedPickupsAreDestroyable | Assets/Scripts/KillTrigger.cs:21 | Every pickup a bomb can drop, tagged with "Buff" or "Debuff", passes the trigger's lower-case "buff" test |
| Movement.CandidateDistance | Assets/Scripts/ParticipantMovementController.cs:67-71 | When the destination was reached and the direction is not negligible, the candidate lies exactly the move distance away; otherwise it is the current destination |
| Movement.ParticipantInput | Assets/Scripts/ParticipantMovementController.cs:147-170 | A player reads the touch stick when touch controls are on and it is the main player, and the axes otherwise; an AI has zero input |
| Movement.StepWithin | Assets/Scripts/ParticipantMovementController.cs:98 | The physics step never overshoots the destination and moves at most the frame step |
| Movement.ScanHits | Assets/Scripts/ParticipantMovementController.cs:75-89 | The hit loop with its break reports "able" exactly when no hit is off the whitelist and no whitelisted mover has the candidate as its own destination |
| Movement.MovementController.Start | Assets/Scripts/ParticipantMovementController.cs:26-34 | The speed starts at the default, and the destination is the starting position |
| Movement.MovementController.AttemptMoving | Assets/Scripts/ParticipantMovementController.cs:36-102 | Zero hits clear the whitelist. The result is "able" exactly when nothing blocks the candidate. The destination becomes the candidate only when able. The position moves towards the destination by at most the frame step and never past it |
| Movement.MovementController.FixedUpdate | Assets/Scripts/PlayerMovementController.cs:104-145 | A dead unit changes nothing. Normal mode attempts a move exactly when the input is non-zero, and then takes it as the direction. Tile-based mode reads input only at the destination; otherwise the previous moving flag drives the attempt |
| Movement.MovementController.ParticipantFixedUpdate | Assets/Scripts/ParticipantMovementController.cs:142-203 | The participant's frame: its input, chosen by control type and touch setting, goes through the same gating as FixedUpdate |
| Match.ColumnLastIsLast | Assets/Scripts/Interface/GameManager.cs:112-131 | The scan of one column yields its last qualifying margin cell, or the value it started with when none qualifies |
| Match.ScanLastIsLast | Assets/Scripts/Interface/GameManager.cs:111-132 | The whole scan yields the last qualifying margin cell in scan order, or the previous value when none qualifies |
| Match.AreaOf | Assets/Scripts/Interface/GameManager.cs:135-137 | What the BoundsInt getters read back is always an ordered rectangle, and for a non-negative size it runs from the position to position + size |
| Match.SetMin | Assets/Scripts/Interface/GameManager.cs:122 | The BoundsInt min setter moves the position to the cell and keeps the old max as the far corner, so the getters read back the cell and the old max, ordered per axis |
| Match.SetMax | Assets/Scripts/Interface/GameManager.cs:129 | The BoundsInt max setter keeps the position and moves the far corner to the cell, so the getters read back the position and the cell, ordered per axis |
| Match.BlockScanPosition | Assets/Scripts/Interface/GameManager.cs:111-131 | After the scan, playableArea's position is the last cell that passed the min test (ScanLast), or the old position when none did |
| Match.BlockScanKeeps | Assets/Scripts/Interface/GameManager.cs:111-131 | When no cell of the scanned bounds passes either test, playableArea is as it was |
| Match.TwoCornerArea | Assets/Scripts/Interface/GameManager.cs:111-131 | When exactly one cell passes the min test and one the max test, and the max cell is not scanned first, playableArea reads back the rectangle the two cells span, whatever it was before |
| Match.FrameCorners | Assets/Scripts/Interface/GameManager.cs:111-131 | On a margin frame, only the top left corner passes the min test and only the bottom right corner the max test, so the raw cells assigned to min and max are crossed on y |
| Match.FrameArea | Assets/Scripts/Interface/GameManager.cs:111-131 | On a margin frame inside the tilemap's bounds, playableArea reads back exactly the frame's rectangle |
| Match.FrameZonesInside | Assets/Scripts/Interface/GameManager.cs:111-163 | On a margin frame at least 3 cells across each way, every spawn zone cell of the scanned area lies strictly inside it |
| Match.FrameZonesApart | Assets/Scripts/Interface/GameManager.cs:111-163 | On a margin frame at least 5 cells across each way, the scanned area's four zones are pairwise disjoint |
| Match.FindPlayableArea | Assets/Scripts/Interface/GameManager.cs:110-131 | The nested loops call the min and max setters exactly as BlockScan visits the cells, so playableArea ends as BlockScan gives it; its position is what ScanLast gives for the min test |
| Match.FillInterior | Assets/Scripts/Interface/GameManager.cs:135-141 | The fill turns into destructible tiles exactly the empty cells strictly inside the area whose roll is at most 80; every other cell keeps its tile |
| Match.SpawnZone | Assets/Scripts/Interface/GameManager.cs:146-163 | Zone k is an inward corner cell plus its horizontal and vertical neighbours |
| Match.SpawnZones | Assets/Scripts/Interface/GameManager.cs:146-163 | There are four zones of three cells, one per corner, in the order the script lists them |
| Match.ZonesInside | Assets/Scripts/Interface/GameManager.cs:146-163 | On an area at least 3 cells across, every zone cell lies strictly inside it |
| Match.ZonesApart | Assets/Scripts/Interface/GameManager.cs:146-163 | On an area at least 5 cells across, the four zones are pairwise disjoint |
| Match.NarrowZonesOverlap | Assets/Scripts/Interface/GameManager.cs:146-163 | On an area 4 cells wide, the two top zones share a cell |
| Match.ClearCellsExactly | Assets/Scripts/Interface/GameManager.cs:214-217 | Clearing a zone empties exactly its cells and leaves every other cell as it was |
| Match.ClearZonesExactly | Assets/Scripts/Interface/GameManager.cs:214-217 | Clearing several zones empties exactly the cells that lie in some of them |
| Match.ArrangedByClearing | Assets/Scripts/Interface/GameManager.cs:135-217 | After the fill and the clearing, zone cells are empty, other interior cells are filled as rolled, and cells outside are untouched |
| Match.ClearZone | Assets/Scripts/Interface/GameManager.cs:214-217 | The three-cell loop empties exactly the zone's cells |
| Match.Participant.constructor | Assets/Scripts/Interface/GameManager.cs:175-237 | A participant object carries the components it was instantiated with, and is not destroyed |
| Match.RemoveFirst | Assets/Scripts/Interface/GameManager.cs:299 | List.Remove removes one entry when the object is listed, leaves the list unchanged when it is not, and adds nothing |
| Match.RemoveFirstDrops | Assets/Scripts/Interface/GameManager.cs:299 | List.Remove takes out only the argument's own entry: every other listed object stays, destroyed or not |
| Match.UnknownWinnerThrows | Assets/Scripts/Interface/GameManager.cs:302-303 | The "Unknown" fallback, reached only by a null reference, makes Substring throw too, because "Unknown" contains no "Participant_" |
| Match.WinnerTextNames | Assets/Scripts/Interface/GameManager.cs:302-304 | The corrected winner text is "Unknown" for a destroyed entry and the team tag for a participant named "Participant_" + tag; for such a name the text as written agrees |
| Match.RosterPassKeepsLiving | Assets/Scripts/Interface/GameManager.cs:295-310 | The roster loop removes only eliminated (null or dead) participants: none still alive is dropped, none is added, and the list does not grow |
| Match.RosterPassGameOver | Assets/Scripts/Interface/GameManager.cs:295-310 | When the roster loop does not throw, the game is over exactly when it already was, or the loop removed someone and left at most one participant |
| Match.CorrectedPassNeverThrows | Assets/Scripts/Interface/GameManager.cs:295-310 | With the corrected winner text, a roster of at least two never makes the loop throw |
| Match.TwoNullsThrow | Assets/Scripts/Interface/GameManager.cs:295-303 | A roster of two destroyed entries makes the loop as written throw on reading the survivor's name, and the corrected one does not |
| Match.LeftoverDestroyedStay | Assets/Scripts/Interface/GameManager.cs:295-310 | On [a dead, dA destroyed, m alive, dB destroyed] the loop leaves [dA, m] without throwing: each removal takes out the entry the loop is at |
| Match.RemoveFirstAt | Assets/Scripts/Interface/GameManager.cs:299 | List.Remove of a participant takes out exactly its first entry, whether it is destroyed or not |
| Match.RemoveAtStep | Assets/Scripts/Interface/GameManager.cs:299 | Removing the entry at i from a roster of distinct participants keeps the entries before i, moves entry i + 1 into slot i, shortens the roster by one and leaves it distinct |
| Match.RemovedKeepsPrefix | Assets/Scripts/Interface/GameManager.cs:297-306 | In a roster of distinct participants, the frame in which the loop removes the entry at i leaves the entries before i in place |
| Match.RosterPassKeepsPrefix | Assets/Scripts/Interface/GameManager.cs:295-310 | In a roster of distinct participants, the loop from i leaves the entries before i in place |
| Match.PassSkipsNext | Assets/Scripts/Interface/GameManager.cs:295-299 | For every roster of distinct participants: when the loop removes the entry at i, the entry behind it slides into slot i and is still listed after the frame, even if it is eliminated |
| Match.EliminationPass | Assets/Scripts/Interface/GameManager.cs:295-310 | The imperative roster loop yields exactly the roster, gameOver and exception of RosterPass |
| Match.Countdown | Assets/Scripts/Interface/GameManager.cs:313-314 | The remaining time never goes below zero and, for a non-negative frame time, never increases; it is either zero or the old value minus the frame time |
| Match.FirstCue | Assets/Scripts/Interface/GameManager.cs:257-259 | The starting cue index points at the largest key moment below the match length, every later moment being at or above it, or at 0 when none is below |
| Match.DrawAtZero | Assets/Scripts/Interface/GameManager.cs:319-323 | Cue 0, the draw, is due exactly when the clock has run out |
| Match.NextIndex | Assets/Scripts/Interface/GameManager.cs:397 | The map button keeps a valid index within the list of maps |
| Match.NextCount | Assets/Scripts/Interface/GameManager.cs:412-413 | The player and AI buttons keep the count within 0..4 and wrap from 4 to 0 |
| Match.CountIsIndex | Assets/Scripts/Interface/GameManager.cs:412-413 | A count button is the index button over five values |
| Match.PressesClimb | Assets/Scripts/Interface/GameManager.cs:397 | Repeated presses climb one step at a time until they wrap |
| Match.PressesAdd | Assets/Scripts/Interface/GameManager.cs:397 | Presses compose: a presses followed by b presses equal a + b presses |
| Match.PressesCycle | Assets/Scripts/Interface/GameManager.cs:397 | Pressing as many times as there are options returns to the start |
| Match.PressesReach | Assets/Scripts/Interface/GameManager.cs:397 | Every option can be reached from any start by some number of presses |
| GameManager.DurationCycle | Assets/Scripts/Interface/GameManager.cs:401 | The duration stays a multiple of 3 within 3..18, and 18 wraps round to 3 |
| GameManager.NetworkMapStartable | Assets/Scripts/Interface/GameManager.cs:405-415 | A map whose name contains "Network" enables StartGame with both counts zeroed |
| GameManager.GameManager.constructor | Assets/Scripts/Interface/GameManager.cs:14-69 | The field initialisers: not paused, 2 players, 2 AIs, map 2, 3 minutes, empty roster, not over |
| GameManager.GameManager.LoadMultiplayerMap | Assets/Scripts/Interface/GameManager.cs:105-173 | playableArea is what the scan leaves through the BoundsInt setters (BlockScan), and the interior of what its getters read back is filled at random. The zones sit in the corners of that rectangle. The roster is the spawned local players, each seated in its zone with its number. The match may start once two have joined |
| GameManager.GameManager.BuildArena | Assets/Scripts/Interface/GameManager.cs:105-163 | The map generation part of loading: playableArea from the scan through the BoundsInt setters, the tiles from the fill of the rectangle it reads back, and the zones from that rectangle. Roster and settings are unchanged |
| GameManager.GameManager.EnterScene | Assets/Scripts/Interface/GameManager.cs:242-259 | A newly active match scene is loaded and its clock started; any other frame leaves the arena, roster and clock alone |
| GameManager.GameManager.StartClock | Assets/Scripts/Interface/GameManager.cs:255-259 | The countdown is the duration in seconds, and the cue index is the largest key moment below it (FirstCue) |
| GameManager.GameManager.Update | Assets/Scripts/Interface/GameManager.cs:239-344 | One frame: the scene check, then a match tick exactly in a match scene whose match is not over. Only a tick can throw or start the outro, and the outro sets the time scale to 0.3 |
| GameManager.GameManager.SeatAll | Assets/Scripts/Interface/GameManager.cs:168-171 | The spawning loop admits each local player in turn: the roster is the spawned prefix, each zone used is cleared, each participant is seated in its zone |
| GameManager.GameManager.SeatNext | Assets/Scripts/Interface/GameManager.cs:168-171 | One turn of the spawning loop admits the next participant into the next zone |
| GameManager.GameManager.AddParticipant | Assets/Scripts/Interface/GameManager.cs:175-237 | The admission outcomes are exclusive. An already-listed object is ignored. One without participant stats is ignored. A fifth is destroyed. Otherwise the participant gets number \|roster\| and the next local number, takes its team's name and tag, gets its zone cleared, stands on the zone centre with its destination there, and is appended; two or more make the match startable |
| GameManager.GameManager.Admit | Assets/Scripts/Interface/GameManager.cs:183-233 | The admitting branch does everything Joined describes and keeps the other state |
| GameManager.GameManager.TogglePauseGame | Assets/Scripts/Interface/GameManager.cs:424-430 | Pause is flipped, and time is frozen exactly while paused |
| GameManager.GameManager.ButtonPress | Assets/Scripts/Interface/GameManager.cs:379-439 | Map and duration buttons advance their counters cyclically. Count buttons cycle their count, zero both on a network map, and return whether StartGame is enabled. Pause and back-to-menu change only the pause state; other actions change nothing here |
| GameManager.GameManager.ModifyCount | Assets/Scripts/Interface/GameManager.cs:404-417 | A count button zeroes both counts on a network map, and otherwise cycles its own count in 0..4; it returns the StartGame rule on the new counts |
| GameManager.GameManager.MatchTick | Assets/Scripts/Interface/GameManager.cs:283-336 | A match frame: Cancel flips the pause. Once enough players joined, the roster loop runs with the winner text as written and, unless it threw, the clock ticks; a throw leaves gameOver and the clock as the loop left them. Before enough players joined, the roster and the clock are untouched |
| GameManager.GameManager.Conclude | Assets/Scripts/Interface/GameManager.cs:295-336 | The roster loop's outcome is kept; a throw ends the frame, and otherwise the clock ticks |
| GameManager.GameManager.TickClock | Assets/Scripts/Interface/GameManager.cs:312-335 | The countdown is floored at zero, at most one due cue fires and moves the index down, cue 0 ends the match, and a finished match starts the outro |
| GameManager.GameManager.FinishOutro | Assets/Scripts/Interface/GameManager.cs:363-377 | After the outro, time runs at normal speed, the roster is empty and the match is no longer over |
| GameManager.Equip | Assets/Scripts/Interface/GameManager.cs:183-224 | Admission gives the participant its numbers, its team name and tag, and its place in a cleared zone |
| GameManager.Enrol | Assets/Scripts/Interface/GameManager.cs:191-196 | The participant number is the roster index, and the local number is set only for a local player |
| GameManager.NameAfterTeam | Assets/Scripts/Interface/GameManager.cs:205-210 | With an Animator the participant takes its team tag and is named "Participant_" + tag; without one, both are kept |
| GameManager.PlaceInZone | Assets/Scripts/Interface/GameManager.cs:214-224 | The zone is cleared, the participant stands on the centre of its first cell, and its movement destination is there |
| GameManager.TickNeverThrows | Assets/Scripts/Interface/GameManager.cs:295-310 | With at least two participants, the corrected roster check does not throw |
| LegacyGameManager.DurationPressesRange | Assets/Scripts/GameManager.cs:359-367 | The older duration button keeps the duration within 1..20 |
| LegacyGameManager.DefaultDurationLost | Assets/Scripts/GameManager.cs:359-367 | After six presses from the default of 3, the duration is 1 more than a multiple of 3: the default is never seen again |
| LegacyGameManager.ClearedZones | Assets/Scripts/GameManager.cs:113-142 | At most four zones are cleared |
| LegacyGameManager.ClearedZonesAreFirst | Assets/Scripts/GameManager.cs:113-142 | For up to four participants, exactly the first that many corner zones are cleared |
| LegacyGameManager.FourthCornerKeptBeyondFour | Assets/Scripts/GameManager.cs:113-142 | For more than four participants, only three corners are cleared, while the fourth spawn point is still in the fourth corner |
| LegacyGameManager.LegacyWinnerThrows | Assets/Scripts/GameManager.cs:264-272 | The older winner text throws exactly when the entry is null or its name does not allow the cut after "Player_" |
| LegacyGameManager.LegacyWinnerNames | Assets/Scripts/GameManager.cs:266-268 | A winner named "Player_" + tag is announced as the tag, and a null winner throws |
| LegacyGameManager.GameManager.constructor | Assets/Scripts/GameManager.cs:9-47 | The field initialisers: not paused, 2 players, 2 AIs, map 2, 3 minutes, empty roster |
| LegacyGameManager.GameManager.LoadMultiplayerMap | Assets/Scripts/GameManager.cs:68-177 | playableArea comes from the scan through the BoundsInt setters, the fill runs on the rectangle its getters read back, and the corners are cleared by participant count. Spawning appends participant after participant to the roster, without clearing it, and stops with a throw at the first prefab it cannot use |
| LegacyGameManager.GameManager.BuildArena | Assets/Scripts/GameManager.cs:68-109 | playableArea from the scan through the BoundsInt setters, and the tiles from the fill of the rectangle it reads back; the roster is unchanged |
| LegacyGameManager.GameManager.ClearCorners | Assets/Scripts/GameManager.cs:111-142 | The tiles are the old ones with exactly the ClearedZones cells emptied |
| LegacyGameManager.GameManager.SpawnParticipants | Assets/Scripts/GameManager.cs:147-176 | The loop appends the spawned participants in order, each numbered i + 1 at the centre of its corner cell, and stops early exactly when one spawn throws |
| LegacyGameManager.GameManager.SpawnOne | Assets/Scripts/GameManager.cs:169-174 | A spawn places the instance and succeeds exactly when it has participant stats and a ParticipantActionController, and then appends it; with stats it is numbered i + 1 even when the missing controller then throws |
| LegacyGameManager.GameManager.SpawnNext | Assets/Scripts/GameManager.cs:169-175 | One pass goes on exactly when prefab i exists and has participant stats and a ParticipantActionController; the roster is the instances so far, plus this one when it went on |
| LegacyGameManager.GameManager.PauseGame | Assets/Scripts/GameManager.cs:415-420 | Pausing sets the flag and freezes time |
| LegacyGameManager.GameManager.ResumeGame | Assets/Scripts/GameManager.cs:425-430 | Resuming clears the flag and restores normal time |
| LegacyGameManager.GameManager.BackToMenu | Assets/Scripts/GameManager.cs:435-440 | Going back to the menu resumes first |
| LegacyGameManager.GameManager.SelectMap | Assets/Scripts/GameManager.cs:346-354 | The map index advances cyclically, and nothing else changes |
| LegacyGameManager.GameManager.SelectMatchDuration | Assets/Scripts/GameManager.cs:359-367 | The duration takes one step of the older rule (+3 while at most 20, else 1) |
| LegacyGameManager.GameManager.SelectPlayerNumber | Assets/Scripts/GameManager.cs:372-381 | The player count cycles in 0..4, and the result is the older StartGame rule on the new counts |
| LegacyGameManager.GameManager.SelectAINumber | Assets/Scripts/GameManager.cs:386-395 | The AI count cycles in 0..4, and the result is the older StartGame rule on the new counts |
| LegacyGameManager.GameManager.MatchTick | Assets/Scripts/GameManager.cs:240-302 | A match frame: Cancel flips the pause, the roster loop runs with the older winner rule, and unless it threw the clock ticks |
| LegacyGameManager.GameManager.Conclude | Assets/Scripts/GameManager.cs:259-302 | The roster loop's outcome is kept; a throw ends the frame, and otherwise the clock ticks |
| LegacyGameManager.GameManager.TickClock | Assets/Scripts/GameManager.cs:276-301 | The countdown is floored at zero, at most one due cue fires and moves the index down, cue 0 ends the match, and a finished match starts the outro |
| LegacyGameManager.GameManager.StartClock | Assets/Scripts/GameManager.cs:199-203 | The countdown is the duration in seconds, and the cue index is the largest key moment below it (FirstCue) |
| LegacyGameManager.GameManager.EnterScene | Assets/Scripts/GameManager.cs:183-212 | A newly active match scene is built and spawned, and its clock is started unless spawning threw; other frames change nothing there |
| LegacyGameManager.GameManager.Update | Assets/Scripts/GameManager.cs:180-309 | One frame: the scene check, then a match tick in a match scene whose match is not over; the outro sets the time scale to 0.3 |
| LegacyGameManager.GameManager.FinishOutro | Assets/Scripts/GameManager.cs:311-325 | After the outro, time runs at normal speed, the roster is empty and the match is no longer over |
| InterfaceHolder.Truncate | Assets/Scripts/Interface/InterfaceHolder.cs:75 | The C# (int) cast truncates towards zero: the floor for non-negative values |
| InterfaceHolder.TruncDiv | Assets/Scripts/Interface/InterfaceHolder.cs:75 | C# integer division truncates towards zero, also for negative operands |
| InterfaceHolder.TruncRem | Assets/Scripts/Interface/InterfaceHolder.cs:80 | The C# remainder takes the sign of the dividend, and together with TruncDiv rebuilds the dividend |
| InterfaceHolder.FormatTimerFields | Assets/Scripts/Interface/InterfaceHolder.cs:72-85 | For a non-negative value, the text is the minutes padded to at least two digits, then ":", then the seconds as exactly two digits |
| InterfaceHolder.TimerFieldDigits | Assets/Scripts/Interface/InterfaceHolder.cs:76-82 | A padded field has at least two digits, exactly two below 100, and reads back as its number |
| InterfaceHolder.TimerSplit | Assets/Scripts/Interface/InterfaceHolder.cs:75-80 | The seconds field is in 0..59, and 60 times the minutes plus the seconds is the whole part of the value |
| InterfaceHolder.TimerRoundTrip | Assets/Scripts/Interface/InterfaceHolder.cs:72-86 | Reading the clock text back gives the whole number of seconds that was formatted |
| InterfaceHolder.FirstActiveIsFirst | Assets/Scripts/Interface/InterfaceHolder.cs:108-109 | The previously active interface is the first active one in the order MainMenu, Pause, Options, MatchLobby, HUD; there is none exactly when none is active |
| InterfaceHolder.AllButTouchOff | Assets/Scripts/Interface/InterfaceHolder.cs:112-114 | Deactivation switches off every interface but TouchScreenHUD, which keeps its state |
| InterfaceHolder.AfterSetActive | Assets/Scripts/Interface/InterfaceHolder.cs:112-121 | Afterwards the requested interface is on, HUD is on when paused, the touch HUD keeps its state, and the rest are off after deactivation or unchanged without it |
| InterfaceHolder.Toggled | Assets/Scripts/Interface/InterfaceHolder.cs:88-104 | The flag is flipped and returned, the TouchScreenHUD state equals it, and no other interface changes |
| InterfaceHolder.ToggleTwice | Assets/Scripts/Interface/InterfaceHolder.cs:88-104 | Toggling twice restores the flag and every interface's state |
| InterfaceHolder.FirstWithAction | Assets/Scripts/Interface/InterfaceHolder.cs:67-70 | The lookup finds the first button with the action, or none exactly when no button has it |
| InterfaceHolder.InterfaceHolder.Start | Assets/Scripts/Interface/InterfaceHolder.cs:38-47 | The holder starts with the dictionaries found in the hierarchy, no previous interface and touch controls off; it is valid exactly when every interface but None is in the dictionary |
| InterfaceHolder.InterfaceHolder.UpdateTimerValue | Assets/Scripts/Interface/InterfaceHolder.cs:72-86 | The clock text becomes the formatted value, and nothing else changes |
| InterfaceHolder.InterfaceHolder.ToggleTouchControls | Assets/Scripts/Interface/InterfaceHolder.cs:88-104 | It returns the flipped flag and sets the touch HUD to it, as Toggled describes |
| InterfaceHolder.InterfaceHolder.SetActiveInterface | Assets/Scripts/Interface/InterfaceHolder.cs:106-124 | It throws exactly when no interface in the search order is active. Otherwise the previous interface is the first active one, the flags are AfterSetActive, and the pause background is on exactly when paused |
| InterfaceHolder.InterfaceHolder.SwitchFlags | Assets/Scripts/Interface/InterfaceHolder.cs:112-121 | The flag updates of SetActiveInterface give AfterSetActive and set the pause background |
| InterfaceHolder.InterfaceHolder.ModifyButtonText | Assets/Scripts/Interface/InterfaceHolder.cs:57-60 | It throws exactly when the interface has no button with the action, and then no button changes; otherwise that first button's text setter runs and the other buttons keep their text and value. No button's interactable flag or initial text changes |
| InterfaceHolder.InterfaceHolder.ModifyButtonInteraction | Assets/Scripts/Interface/InterfaceHolder.cs:62-65 | It throws exactly when the interface has no button with the action, and then no flag changes; otherwise that first button's interactable state is set and the others keep theirs. No button's text, value or initial text changes |
| LegacyInterfaceHolder.ReplaceSuffixFrom | Assets/Scripts/InterfaceHolder.cs:103 | Replacing the tail that starts at the first ':' yields the text before it followed by the replacement |
| LegacyInterfaceHolder.ColonRewrite | Assets/Scripts/InterfaceHolder.cs:103 | The rewrite fails (Substring(-1) throws) exactly when the text has no ':'; otherwise it is the text before the first ':' followed by ": " and the value |
| LegacyInterfaceHolder.ColonRewriteTwice | Assets/Scripts/InterfaceHolder.cs:103 | Rewriting twice keeps only the latest value |
| LegacyInterfaceHolder.MenuObject.constructor | Assets/Scripts/InterfaceHolder.cs:73-76 | A menu object has its name, parent and active state |
| LegacyInterfaceHolder.MenuText.constructor | Assets/Scripts/InterfaceHolder.cs:79-82 | A button text has its caption, its parent's name and its button |
| LegacyInterfaceHolder.FirstNamed | Assets/Scripts/InterfaceHolder.cs:126-133 | The index of the first text whose parent's name contains the button name, or the length when none does |
| LegacyInterfaceHolder.FirstStage | Assets/Scripts/InterfaceHolder.cs:201-211 | The index of the first stage matching both the stage and the category name, or the length when none does |
| LegacyInterfaceHolder.Captions | Assets/Scripts/InterfaceHolder.cs:93 | The captions of the texts, one per text, in order |
| LegacyInterfaceHolder.InterfaceHolder.Start | Assets/Scripts/InterfaceHolder.cs:73-82 | The holder starts with the gathered categories, stages and texts, no current menu, and touch controls off |
| LegacyInterfaceHolder.InterfaceHolder.UpdateMenuButtonTextValue | Assets/Scripts/InterfaceHolder.cs:90-114 | Without a throw, every text whose parent's name contains the button name is rewritten (completely, or after its ':') and the others keep theirs. A throw happens exactly at the first match without a ':'. The error is logged exactly when nothing matched |
| LegacyInterfaceHolder.InterfaceHolder.UpdateMenuButtonValue | Assets/Scripts/InterfaceHolder.cs:119-122 | The two-argument overload is the colon rewrite of every matching text. It logs exactly when nothing matched and nothing threw, and a throw stops at the first matching text without ':', with the earlier rewrites done |
| LegacyInterfaceHolder.InterfaceHolder.SetButtonInteractible | Assets/Scripts/InterfaceHolder.cs:124-137 | Only the first matching button changes its interactable state; with no match nothing changes and the error is logged |
| LegacyInterfaceHolder.InterfaceHolder.UpdateTimerValue | Assets/Scripts/InterfaceHolder.cs:139-155 | The clock text is the same mm:ss formatting as the newer holder, and nothing else changes |
| LegacyInterfaceHolder.InterfaceHolder.ToggleTouchControls | Assets/Scripts/InterfaceHolder.cs:157-165 | The flag is flipped and returned; the touch stick and button follow it only while paused |
| LegacyInterfaceHolder.InterfaceHolder.SetInGameTouchInterfaceActive | Assets/Scripts/InterfaceHolder.cs:167-171 | The stick and the action button take the given state |
| LegacyInterfaceHolder.InterfaceHolder.SetInGameInterfaceActive | Assets/Scripts/InterfaceHolder.cs:173-181 | The pause button and the clock take the given state, and the touch controls too when they are enabled |
| LegacyInterfaceHolder.InterfaceHolder.DisableAllActiveMenus | Assets/Scripts/InterfaceHolder.cs:183-194 | Every category and every stage is inactive afterwards |
| LegacyInterfaceHolder.InterfaceHolder.SetActiveMenu | Assets/Scripts/InterfaceHolder.cs:196-220 | Everything is switched off, then only the first stage matching both names and its parent are switched on and returned. With no match the previous menu is re-enabled and nothing is returned, or it throws when there was no previous menu. The touch flag, the timer text and the in-game element flags stay |
| LegacyInterfaceHolder.FirstNamedAt | Assets/Scripts/InterfaceHolder.cs:126-133 | An index before which nothing matches and at which the text matches is FirstNamed |
| LegacyInterfaceHolder.FirstStageAt | Assets/Scripts/InterfaceHolder.cs:201-211 | An index before which nothing matches and at which the stage matches is FirstStage |
| Extensions.ToGUIName | Assets/Scripts/Interface/Extensions.cs:7-23 | The character loop builds exactly GUIName of the word |
| Extensions.GUINameNoUnderscore | Assets/Scripts/Interface/Extensions.cs:12-15 | No underscore appears after the first character of the output |
| Extensions.GUINameStrip | Assets/Scripts/Interface/Extensions.cs:9-21 | Deleting the inserted spaces gives the word with its first character upper-cased and its later underscores removed |
| Extensions.PieceSpace | Assets/Scripts/Interface/Extensions.cs:16-19 | A space is emitted before character i >= 1 exactly when it is upper case and the next character is lower case |
| Extensions.GUIPiecesLength | Assets/Scripts/Interface/Extensions.cs:10-21 | The output length is the input length, minus the skipped underscores, plus the inserted spaces |
| Extensions.IsBetweenSplit | Assets/Scripts/Interface/Extensions.cs:46-51 | The half-open range [min, max) is the disjoint union of [min, mid) and [mid, max) |
| Extensions.IsFoundIn | Assets/Scripts/Interface/Extensions.cs:30-41 | The search is true exactly when the object is in the list |
| ClickableButton.ValueCaption | Assets/Scripts/Interface/ClickableButton.cs:34 | The caption is the initial text, then ": ", then the value |
| ClickableButton.SetterResult | Assets/Scripts/Interface/ClickableButton.cs:28-41 | A "~v" text gives the caption initial text + ": " + v and the value v; any other text is the caption itself with no value |
| ClickableButton.CaptionAfterLast | Assets/Scripts/Interface/ClickableButton.cs:31-40 | After a series of sets, the caption depends only on the initial text and the last set: "~" sets do not accumulate |
| ClickableButton.ClickableButton.Awake | Assets/Scripts/Interface/ClickableButton.cs:45-49 | The initial text is captured once, from the authored text, no value is set, and the interactable flag stays as authored |
| ClickableButton.ClickableButton.SetText | Assets/Scripts/Interface/ClickableButton.cs:28-41 | The text and the value become SetterResult, and the initial text is kept |
| ClickableButton.ClickableButton.SetInteractable | Assets/Scripts/Interface/InterfaceHolder.cs:64 | Only the interactable state changes |

## Left out

- Audio: sound objects, death and suicide sounds, announcer cues and the soundtrack toggle play nothing in the model. A fired cue is only the index step.
- Scene loading, `Application.Quit`, `Debug.Log` text, `DontDestroyOnLoad` and the Awake singletons: engine services with no state the core reads back.
- The device-type switch in `GameManager.Awake`: it only chooses interfaces. `UpdateInterfaces` is among the holder calls listed below.
- Mirror networking: the online player count and network spawning. A "Network" map is seen only through its name.
- Floating point: timers, speeds and positions are exact reals, so float rounding and Unity's approximate `Vector2` equality are not modelled.
- The square root: it is an oracle `mag`, related to the squared length.
- Character casing is ASCII-only: `char.ToUpper`, `IsUpper`, `IsLower` and `ToLower` on other letters are not modelled.
- Rigidbody physics: positions are set directly, as the scripts do. Casts are given hits and flags, not computed from colliders.
- The tile references: `Tilemap` and `DestructibleTile` assignments on each bomb are left out. The model has one tilemap, and a destructible tile is a tile kind.
- `Instantiate` is a fresh object, or one of given spawned objects. `Destroy` is a flag on that object, and the destruction cascade to child components is not modelled.
- Coroutines are split into steps that the caller runs in order: `Start`/`Resume` for the buff wait, `Update`/`FinishOutro` for `FinishGameAnimation`. The waits themselves are not modelled.
- The z axis of `playableArea`: the scan only ever assigns cells with z = 0 to a default BoundsInt, so z stays 0 and the model's BoundsInt is two-dimensional.
- ParticipantAction.ParticipantActionController.Update: the model no longer promises that every bomb left in the list is live. The script's pruning loop keeps some exploded bombs (see Findings), so Update promises only that the live bombs are those of the old list plus the new one, in order.
- BombController.PickPrefab: the rejection-sampling loops draw from a random stream. The model takes the draws as a finite sequence. A stream that never matches (an empty tag pool) loops forever in the script; in the model it is "no pickup".
- One movement class stands for both controllers. The older one reads its input inside `FixedUpdate`; the model passes it in.
- Movement.MovementController.ParticipantFixedUpdate: its contract states the input choice and the gating through FixedUpdate. It does not restate every field result separately.
- The managers' calls into the interface holders are not modelled, so a manager frame never throws from one. The holder operations are modelled on their own, with their throws. The calls left out are:
  - in the newer manager: `SetActiveInterface` on a scene change, on pause and resume, and in `UpdateInterfaces`; `ModifyButtonText` and `ModifyButtonInteraction` in `ButtonPress` and `UpdateInterfaces`; `UpdateTimerValue` on every tick;
  - in the older manager: `DisableAllActiveMenus` and `SetInGameInterfaceActive` on a scene change; the five `UpdateMenuButtonTextValue` captions and `SetActiveMenu("Main", "Main")` on entering a menu scene; `UpdateMenuButtonTextValue`, `SetButtonInteractible`, `SetActiveMenu` and `DisableAllActiveMenus` in the menu button actions; `UpdateTimerValue` on every tick.
  Some of them can throw where the holder's model says so. For example, `SetActiveInterface` throws when no interface is active, and a caption rewrite throws on a matching text without ':'.
- The rest of the menu-scene branch of both `Update`s plays audio only.
- The Animator controller assignment in `AddParticipant`: it is animation only. Tag and name are modelled.
- `activeInHierarchy` is the object's own active flag; parent activation is not propagated.
- The hierarchy scans in both `InterfaceHolder.Start`s: the model starts from the collections they would build.
- BombController.BombController.Explode: the script halves a chained bomb's timer during the ray loops. The model halves it after all four rays, which gives the same final timers.
- UnitStats, ParticipantStats and PlayerStats `Update`: a once-only death latch that adds a seven-second Lifetime, drops the collider and plays a sound. It is not modelled beyond the `isAlive` flag.
- TimedKillTrigger and BuffPickup's trigger: the debris effect is a `Debris` spawn without a kill trigger. Pickup collection by a participant is not modelled.
- The root-level ClickableButton.cs and the inspector editor script only register click listeners or draw UI.

## Findings

| source | as written | input that shows it | evidently intended | confidence | as-written member | corrected member |
|---|---|---|---|---|---|---|
| Assets/Scripts/ParticipantActionController.cs:82-86 | After `RemoveAt(i)` the loop still runs `i++`, so the bomb that slid into slot i is not checked in that frame | Two exploded bombs side by side, `[a, b]`: the pass leaves `[b]`, a dead bomb still counted against the cap | Remove every destroyed bomb, keeping the order of the rest | not executed | ParticipantAction.SkipPruneKeepsSecondNull | ParticipantAction.ParticipantActionController.Prune |
| Assets/Scripts/Interface/GameManager.cs:302-303 | `?.name` tests only for a null reference. A destroyed participant is a reference Unity merely reports as null, so reading its name throws MissingReferenceException. The `?? "Unknown"` fallback, reached only by a null reference, throws as well: `Substring(IndexOf("Participant_") + 12)` asks for index 11 of a 7-character string. Either way the frame stops before the clock, and `gameOver` stays unset | A roster of two destroyed participants: the first is removed, the destroyed other is left as entry 0, and reading its name throws | Test entry 0 with Unity's `== null` and announce "Unknown" for a destroyed one, keep a name without the prefix whole, and end the match | not executed | Match.TwoNullsThrow | Match.CorrectedPassNeverThrows |
