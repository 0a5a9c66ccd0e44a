/**
 * Assets/Scripts/GameManager.cs: the match controller of the first, offline version.
 * It builds the arena when a multiplayer scene loads, clears as many corners as there
 * are participants, instantiates one prefab per participant, runs the countdown and the
 * elimination check every frame, and holds the lobby settings the menu buttons change.
 */
module LegacyGameManager {
  import opened Common
  import opened Grid
  import opened Vectors
  import opened Units
  import opened Match

  /** multiplayerScenePrefix */
  const MatchScenePrefix: string := "MP_"

  /** MenuMPSelectMatchDuration: three minutes more, or back to one once that would pass 20. */
  function NextDuration(d: int): int {
    if d + 3 <= 20 then d + 3 else 1
  }

  /** The duration after k presses of its button. */
  function DurationPresses(d: int, k: nat): int {
    if k == 0 then d else NextDuration(DurationPresses(d, k - 1))
  }

  /** The duration stays between 1 and 20 however often the button is pressed. */
  lemma {:induction false} DurationPressesRange(d: int, k: nat)
    requires 1 <= d <= 20
    ensures 1 <= DurationPresses(d, k) <= 20
  {
    if k > 0 {
      DurationPressesRange(d, k - 1);
    }
  }

  /**
   * From the default of three minutes, six presses reach 18 and wrap to 1; from then on
   * the duration is one more than a multiple of three, so three minutes never comes back.
   */
  lemma {:induction false} DefaultDurationLost(k: nat)
    requires k >= 6
    ensures DurationPresses(3, k) % 3 == 1 && 1 <= DurationPresses(3, k) <= 19
  {
    if k == 6 {
      assert DurationPresses(3, 5) == 18;
    } else {
      DefaultDurationLost(k - 1);
    }
  }

  /** The StartGame button is enabled for two to four participants in all. */
  predicate StartEnabled(players: int, ais: int) {
    2 <= players + ais <= 4
  }

  /** Corner k is cleared for n participants: the first three from n > k on, but the fourth only for exactly four. */
  predicate CornerCleared(n: int, k: int) {
    if k < 3 then n >= k + 1 else n == 4
  }

  /** The zones LoadMultiplayerMap clears for n participants, in the order it clears them. */
  function ClearedZones(area: Area, n: int): (zs: seq<seq<Cell>>)
    ensures |zs| <= 4
  {
    (if CornerCleared(n, 0) then [SpawnZone(area, 0)] else []) +
    (if CornerCleared(n, 1) then [SpawnZone(area, 1)] else []) +
    (if CornerCleared(n, 2) then [SpawnZone(area, 2)] else []) +
    (if CornerCleared(n, 3) then [SpawnZone(area, 3)] else [])
  }

  /** For up to four participants the first n corners are cleared, the same zones the networked version clears. */
  lemma ClearedZonesAreFirst(area: Area, n: int)
    requires 0 <= n <= 4
    ensures ClearedZones(area, n) == SpawnZones(area)[..n]
  {
    var zs := SpawnZones(area);
    if n == 0 {
    } else if n == 1 {
      assert zs[..1] == [zs[0]];
    } else if n == 2 {
      assert zs[..2] == [zs[0], zs[1]];
    } else if n == 3 {
      assert zs[..3] == [zs[0], zs[1], zs[2]];
    } else {
      assert zs[..4] == zs;
    }
  }

  /** With more than four participants the fourth corner is left as the fill made it, although participant 4 spawns in it. */
  lemma FourthCornerKeptBeyondFour(area: Area, n: int)
    requires n > 4
    ensures ClearedZones(area, n) == SpawnZones(area)[..3]
    ensures LegacySpawnPoint(area, 3) == CellCenter(SpawnZone(area, 3)[0])
  {
    var zs := SpawnZones(area);
    assert zs[..3] == [zs[0], zs[1], zs[2]];
  }

  /** Where participant i is instantiated: the first cell of its corner zone, offset to the cell's centre; from the fifth on, the origin. */
  function LegacySpawnPoint(area: Area, i: int): Vec {
    if 0 <= i < 4 then CellCenter(SpawnZone(area, i)[0]) else Zero
  }

  /** The legacy winner text: the name of entry 0 cut after "Player_" and without "(Clone)"; None is the exception. */
  function LegacyWinnerText(first: Option<string>): Option<string> {
    if first.None? then None
    else
      var cut := CutAfter(first.value, LegacyPrefix);
      if cut.None? then None else Some(ReplaceAll(cut.value, "(Clone)", ""))
  }

  /** The roster pass throws exactly where the legacy winner text does. */
  lemma LegacyWinnerThrows(first: Option<string>)
    ensures WinnerThrows(LegacyWinner, first) <==> LegacyWinnerText(first).None?
  {
  }

  /** A prefab named "Player_" and its tag wins under that tag; a destroyed winner entry throws. */
  lemma LegacyWinnerNames(tag: string)
    requires !Contains(tag, "(Clone)")
    ensures LegacyWinnerText(Some(LegacyPrefix + tag)) == Some(tag)
    ensures LegacyWinnerText(None).None?
  {
    var name := LegacyPrefix + tag;
    assert StartsWith(name, LegacyPrefix) by {
      assert name[..|LegacyPrefix|] == LegacyPrefix;
    }
    assert IndexOf(name, LegacyPrefix) == 0;
    assert name[|LegacyPrefix|..] == tag;
    ReplaceAbsent(tag, "(Clone)", "");
  }

  /** The instances LoadMultiplayerMap creates: distinct objects, and no stats component shared by two. */
  predicate Instances(spawned: seq<Participant>) {
    forall i, j :: 0 <= i < j < |spawned| ==>
      spawned[i] != spawned[j] && (spawned[i].stats.Some? && spawned[j].stats.Some? ==> spawned[i].stats != spawned[j].stats)
  }

  /** Instance j stands on its spawn point and is participant number j + 1. */
  predicate SpawnedAs(p: Participant, j: int, area: Area)
    reads p, if p.stats.Some? then {p.stats.value} else {}
  {
    p.stats.Some? && p.stats.value.kind == ParticipantUnit &&
    p.stats.value.participantNumber == j + 1 && p.position == LegacySpawnPoint(area, j)
  }

  predicate SpawnedUpTo(spawned: seq<Participant>, i: int, area: Area)
    reads Members(spawned), StatsOf(spawned)
  {
    forall j :: 0 <= j < i && j < |spawned| ==> SpawnedAs(spawned[j], j, area)
  }

  /**
   * How far the spawning loop got, for n participants: the first `count` instances
   * joined the roster in order, each numbered and placed; it stopped early, throwing,
   * exactly at the first instance without a prefab, without participant stats or
   * without a ParticipantActionController.
   */
  predicate SpawnStopped(spawned: seq<Participant>, before: seq<Participant>, after: seq<Participant>,
                         area: Area, n: int, prefabCount: int, threw: bool)
    requires n <= |spawned|
    reads Members(spawned), StatsOf(spawned)
  {
    var count := |after| - |before|;
    0 <= count <= n && after == before + spawned[..count] &&
    SpawnedUpTo(spawned, count, area) && count <= prefabCount &&
    (threw <==> count < n) &&
    (threw ==> count == prefabCount || !HasParticipantStats(spawned[count]) || !spawned[count].hasPlacer)
  }

  class GameManager {
    var gameIsPaused: bool
    /** Time.timeScale */
    var timeScale: real
    const tilemap: Tilemap
    var playableArea: Bounds
    /** participantPrefabs.Length */
    const prefabCount: int
    /** multiplayerScenes */
    const scenes: seq<string>
    /** currentlyLoadedScene, null before the first frame. */
    var currentScene: Option<string>
    var playerCount: int
    var aiCount: int
    var mapIndex: int
    var duration: int
    /** currentlyAliveParticipants */
    var roster: seq<Participant>
    var remaining: real
    var cueIndex: int
    var gameOver: bool

    /** The ranges every method keeps. */
    predicate Valid()
      reads this
    {
      prefabCount >= 0 && 0 <= mapIndex < |scenes| && 0 <= playerCount <= 4 && 0 <= aiCount <= 4 &&
      1 <= duration <= 20 && -1 <= cueIndex < |KeyMoments|
    }

    /** MPParticipantCount */
    function ParticipantCount(): int
      reads this
    {
      playerCount + aiCount
    }

    /** The field initialisers; the lobby starts on map 2, so there are at least three maps. */
    constructor (tilemap: Tilemap, prefabCount: nat, scenes: seq<string>)
      requires |scenes| >= 3
      ensures Valid()
      ensures this.tilemap == tilemap && this.prefabCount == prefabCount && this.scenes == scenes
      ensures !gameIsPaused && timeScale == 1.0 && currentScene.None?
      ensures playerCount == 2 && aiCount == 2 && mapIndex == 2 && duration == 3
      ensures roster == [] && !gameOver && cueIndex == 0
    {
      gameIsPaused := false;
      timeScale := 1.0;
      this.tilemap := tilemap;
      playableArea := DefaultBounds;
      this.prefabCount := prefabCount;
      this.scenes := scenes;
      currentScene := None;
      playerCount := 2;
      aiCount := 2;
      mapIndex := 2;
      duration := 3;
      roster := [];
      remaining := 0.0;
      cueIndex := 0;
      gameOver := false;
    }

    /** The lobby settings are as they were. */
    twostate predicate LobbyKept()
      reads this
    {
      playerCount == old(playerCount) && aiCount == old(aiCount) && mapIndex == old(mapIndex) &&
      duration == old(duration) && currentScene == old(currentScene)
    }

    /** The clock and the end of the match are as they were. */
    twostate predicate ClockKept()
      reads this
    {
      remaining == old(remaining) && cueIndex == old(cueIndex) && gameOver == old(gameOver)
    }

    twostate predicate PauseKept()
      reads this
    {
      gameIsPaused == old(gameIsPaused) && timeScale == old(timeScale)
    }

    /**
     * LoadMultiplayerMap. The area scan and the fill are those of the networked version;
     * then the corners are cleared by participant count and one prefab is instantiated
     * per participant. Instance i is the i-th of `spawned`; the loop throws when there is
     * no prefab i, or when the placed instance has no participant stats or no
     * ParticipantActionController. The
     * roster is not emptied first: the new participants are appended.
     */
    method LoadMultiplayerMap(lo: Cell, hi: Cell, roll: Cell -> int, spawned: seq<Participant>) returns (threw: bool)
      requires Valid() && Instances(spawned) && ParticipantCount() <= |spawned|
      modifies this, tilemap, Members(spawned), StatsOf(spawned)
      ensures Valid() && LobbyKept() && ClockKept() && PauseKept()
      ensures playableArea == BlockScan(old(tilemap.tiles), lo.0, hi.0 + 1, lo.1, hi.1, old(playableArea))
      ensures Arranged(tilemap.tiles, old(tilemap.tiles), AreaOf(playableArea), roll, ClearedZones(AreaOf(playableArea), ParticipantCount()))
      ensures SpawnStopped(spawned, old(roster), roster, AreaOf(playableArea), ParticipantCount(), prefabCount, threw)
    {
      BuildArena(lo, hi, roll);
      ghost var filled := tilemap.tiles;
      ClearCorners(ParticipantCount());
      ArrangedByClearing(old(tilemap.tiles), filled, AreaOf(playableArea), roll, ClearedZones(AreaOf(playableArea), ParticipantCount()));
      var count := SpawnParticipants(spawned);
      threw := count < ParticipantCount();
    }

    /** The area scan and the fill. */
    method BuildArena(lo: Cell, hi: Cell, roll: Cell -> int)
      requires Valid()
      modifies this, tilemap
      ensures Valid() && LobbyKept() && ClockKept() && PauseKept() && roster == old(roster)
      ensures playableArea == BlockScan(old(tilemap.tiles), lo.0, hi.0 + 1, lo.1, hi.1, old(playableArea))
      ensures forall c :: TileAt(tilemap.tiles, c) == FillTile(old(tilemap.tiles), AreaOf(playableArea), roll, c)
    {
      playableArea := FindPlayableArea(tilemap.tiles, lo, hi, playableArea);
      FillInterior(tilemap, AreaOf(playableArea), roll);
    }

    /** The four corner clearings, each guarded by the participant count. */
    method ClearCorners(n: int)
      modifies tilemap
      ensures tilemap.tiles == ClearZones(old(tilemap.tiles), ClearedZones(AreaOf(playableArea), n))
    {
      ghost var zs: seq<seq<Cell>> := [];
      for k := 0 to 4
        invariant zs == ClearedZonesBelow(AreaOf(playableArea), n, k)
        invariant tilemap.tiles == ClearZones(old(tilemap.tiles), zs)
      {
        if CornerCleared(n, k) {
          ClearZone(tilemap, SpawnZone(AreaOf(playableArea), k));
          assert (zs + [SpawnZone(AreaOf(playableArea), k)])[..|zs|] == zs;
          zs := zs + [SpawnZone(AreaOf(playableArea), k)];
        }
      }
      assert ClearedZonesBelow(AreaOf(playableArea), n, 4) == ClearedZones(AreaOf(playableArea), n);
    }

    /** The spawning loop. */
    method SpawnParticipants(spawned: seq<Participant>) returns (count: int)
      requires Valid() && Instances(spawned) && ParticipantCount() <= |spawned|
      modifies this, Members(spawned), StatsOf(spawned)
      ensures Valid() && LobbyKept() && ClockKept() && PauseKept() && playableArea == old(playableArea)
      ensures count == |roster| - |old(roster)|
      ensures SpawnStopped(spawned, old(roster), roster, AreaOf(playableArea), ParticipantCount(), prefabCount, count < ParticipantCount())
    {
      ghost var before := roster;
      var i := 0;
      while i < ParticipantCount()
        invariant 0 <= i <= ParticipantCount() && i <= prefabCount
        invariant Valid() && LobbyKept() && ClockKept() && PauseKept() && playableArea == old(playableArea)
        invariant roster == before + spawned[..i]
        invariant SpawnedUpTo(spawned, i, AreaOf(playableArea))
      {
        var ok := SpawnNext(spawned, i, before);
        if !ok {
          break;
        }
        i := i + 1;
      }
      count := i;
    }

    /**
     * One pass of the spawning loop: with no prefab i it throws before instantiating,
     * otherwise SpawnOne; the roster is the instances so far, one more when it went on.
     */
    method SpawnNext(spawned: seq<Participant>, i: int, ghost before: seq<Participant>) returns (ok: bool)
      requires Valid() && Instances(spawned) && 0 <= i < |spawned|
      requires roster == before + spawned[..i] && SpawnedUpTo(spawned, i, AreaOf(playableArea))
      modifies this, Members(spawned), StatsOf(spawned)
      ensures Valid() && LobbyKept() && ClockKept() && PauseKept() && playableArea == old(playableArea)
      ensures ok <==> i < prefabCount && HasParticipantStats(spawned[i]) && spawned[i].hasPlacer
      ensures roster == before + spawned[..if ok then i + 1 else i]
      ensures SpawnedUpTo(spawned, if ok then i + 1 else i, AreaOf(playableArea))
    {
      if i >= prefabCount {
        return false;
      }
      ok := SpawnOne(spawned, i);
      if ok {
        assert spawned[..i + 1] == spawned[..i] + [spawned[i]];
      }
    }

    /**
     * Instantiate prefab i at its spawn point, then number it, hand its
     * ParticipantActionController the tilemap and list it. Without participant stats it
     * throws before the number; without the action controller it throws after it.
     */
    method SpawnOne(spawned: seq<Participant>, i: int) returns (ok: bool)
      requires Instances(spawned) && 0 <= i < |spawned|
      requires SpawnedUpTo(spawned, i, AreaOf(playableArea))
      modifies this, Members(spawned), StatsOf(spawned)
      ensures ok == (HasParticipantStats(spawned[i]) && spawned[i].hasPlacer)
      ensures LobbyKept() && ClockKept() && PauseKept() && playableArea == old(playableArea)
      ensures roster == old(roster) + if ok then [spawned[i]] else []
      ensures spawned[i].position == LegacySpawnPoint(AreaOf(playableArea), i)
      ensures HasParticipantStats(spawned[i]) ==> spawned[i].stats.value.participantNumber == i + 1
      ensures SpawnedUpTo(spawned, if ok then i + 1 else i, AreaOf(playableArea))
    {
      var p := spawned[i];
      p.position := LegacySpawnPoint(AreaOf(playableArea), i);
      ok := HasParticipantStats(p);
      if ok {
        p.stats.value.participantNumber := i + 1;
        ok := p.hasPlacer;
        if ok {
          roster := roster + [p];
        }
      }
    }

    method PauseGame()
      modifies this
      ensures gameIsPaused && timeScale == 0.0
      ensures roster == old(roster) && LobbyKept() && ClockKept()
    {
      timeScale := 0.0;
      gameIsPaused := true;
    }

    method ResumeGame()
      modifies this
      ensures !gameIsPaused && timeScale == 1.0
      ensures roster == old(roster) && LobbyKept() && ClockKept()
    {
      timeScale := 1.0;
      gameIsPaused := false;
    }

    /** MenuIGBackToMenu: resume, so that time is not left frozen, before the menu scene loads. */
    method BackToMenu()
      modifies this
      ensures !gameIsPaused && timeScale == 1.0
      ensures roster == old(roster) && LobbyKept() && ClockKept()
    {
      ResumeGame();
    }

    /** MenuMPSelectMap: the next map, round to the first. */
    method SelectMap()
      requires Valid()
      modifies this
      ensures Valid() && mapIndex == NextIndex(old(mapIndex), |scenes|)
      ensures playerCount == old(playerCount) && aiCount == old(aiCount) && duration == old(duration)
      ensures roster == old(roster) && ClockKept() && PauseKept()
    {
      mapIndex := NextIndex(mapIndex, |scenes|);
    }

    method SelectMatchDuration()
      requires Valid()
      modifies this
      ensures Valid() && duration == NextDuration(old(duration))
      ensures playerCount == old(playerCount) && aiCount == old(aiCount) && mapIndex == old(mapIndex)
      ensures roster == old(roster) && ClockKept() && PauseKept()
    {
      duration := NextDuration(duration);
    }

    /** MenuMPSelectPlayerNumber; the result is the interactable state of the StartGame button. */
    method SelectPlayerNumber() returns (startEnabled: bool)
      requires Valid()
      modifies this
      ensures Valid() && playerCount == NextCount(old(playerCount))
      ensures aiCount == old(aiCount) && mapIndex == old(mapIndex) && duration == old(duration)
      ensures startEnabled == StartEnabled(playerCount, aiCount)
      ensures roster == old(roster) && ClockKept() && PauseKept()
    {
      playerCount := NextCount(playerCount);
      startEnabled := StartEnabled(playerCount, aiCount);
    }

    method SelectAINumber() returns (startEnabled: bool)
      requires Valid()
      modifies this
      ensures Valid() && aiCount == NextCount(old(aiCount))
      ensures playerCount == old(playerCount) && mapIndex == old(mapIndex) && duration == old(duration)
      ensures startEnabled == StartEnabled(playerCount, aiCount)
      ensures roster == old(roster) && ClockKept() && PauseKept()
    {
      aiCount := NextCount(aiCount);
      startEnabled := StartEnabled(playerCount, aiCount);
    }

    /**
     * One frame of a running match (gameOver still false): Cancel resumes a paused game
     * and pauses a running one; the roster loop runs, with the legacy winner text; and
     * unless it threw the clock ticks.
     */
    method MatchTick(cancel: bool, dt: real) returns (threw: bool, outroStarted: bool)
      requires Valid() && !gameOver
      modifies this
      ensures Valid() && LobbyKept()
      ensures cancel ==> gameIsPaused == !old(gameIsPaused)
      ensures !cancel ==> gameIsPaused == old(gameIsPaused)
      ensures var e := old(RosterPass(roster, 0, false, LegacyWinner));
        roster == e.roster && threw == e.threw &&
        (threw ==> !outroStarted && gameOver == e.over && remaining == old(remaining) && cueIndex == old(cueIndex)) &&
        (!threw ==> Ticked(dt, e.over, outroStarted))
      ensures !outroStarted ==> timeScale == (if cancel then (if gameIsPaused then 0.0 else 1.0) else old(timeScale))
    {
      var r, over, failed := EliminationPass(roster, false, LegacyWinner);
      if cancel {
        if gameIsPaused {
          ResumeGame();
        } else {
          PauseGame();
        }
      }
      threw, outroStarted := Conclude(PassEnd(r, over, failed), dt);
    }

    /** The rest of a frame once the roster loop has ended: its outcome is kept, and unless it threw the clock ticks. */
    method Conclude(e: PassEnd, dt: real) returns (threw: bool, outroStarted: bool)
      requires Valid()
      modifies this
      ensures Valid() && LobbyKept() && gameIsPaused == old(gameIsPaused)
      ensures roster == e.roster && threw == e.threw
      ensures threw ==> !outroStarted && gameOver == e.over && remaining == old(remaining) && cueIndex == old(cueIndex)
      ensures !threw ==> Ticked(dt, e.over, outroStarted)
      ensures !outroStarted ==> timeScale == old(timeScale)
    {
      roster, gameOver := e.roster, e.over;
      threw, outroStarted := e.threw, false;
      if !threw {
        outroStarted := TickClock(dt);
      }
    }

    /**
     * The clock part of a frame: one frame off the countdown, the due key moment
     * announced (the last one ends the match in a draw), and a finished match starts
     * the outro, whose first part slows time to 0.3.
     */
    twostate predicate Ticked(dt: real, wasOver: bool, outroStarted: bool)
      reads this
    {
      var due := CueDue(remaining, old(cueIndex));
      remaining == Countdown(old(remaining), dt) &&
      cueIndex == (if due then old(cueIndex) - 1 else old(cueIndex)) &&
      gameOver == (wasOver || (due && old(cueIndex) == 0)) &&
      outroStarted == gameOver &&
      (outroStarted ==> timeScale == 0.3)
    }

    method TickClock(dt: real) returns (outroStarted: bool)
      requires Valid()
      modifies this
      ensures Valid() && LobbyKept() && roster == old(roster) && gameIsPaused == old(gameIsPaused)
      ensures Ticked(dt, old(gameOver), outroStarted)
      ensures !outroStarted ==> timeScale == old(timeScale)
    {
      remaining := Countdown(remaining, dt);
      if CueDue(remaining, cueIndex) {
        if cueIndex == 0 {
          gameOver := true;
        }
        cueIndex := cueIndex - 1;
      }
      outroStarted := gameOver;
      if gameOver {
        timeScale := 0.3;
      }
    }

    /** The countdown is the match duration in seconds, and the key-moment index is the last moment it has not passed (or the first). */
    predicate ClockStarted()
      reads this
    {
      remaining == (duration * 60) as real && 0 <= cueIndex < |KeyMoments| &&
      (cueIndex == 0 || KeyMoments[cueIndex] < remaining) &&
      (forall k :: cueIndex < k < |KeyMoments| ==> KeyMoments[k] >= remaining)
    }

    method StartClock()
      requires Valid()
      modifies this
      ensures Valid() && ClockStarted() && gameOver == old(gameOver) && LobbyKept() && PauseKept()
      ensures roster == old(roster) && playableArea == old(playableArea)
    {
      remaining := (duration * 60) as real;
      cueIndex := FirstCue(remaining);
    }

    /**
     * The scene check at the top of Update: a newly active scene becomes the loaded one,
     * and a match scene is then built and its countdown started.
     */
    method EnterScene(activeScene: string, lo: Cell, hi: Cell, roll: Cell -> int, spawned: seq<Participant>)
      returns (loaded: bool, threw: bool)
      requires Valid() && Instances(spawned) && ParticipantCount() <= |spawned|
      modifies this, tilemap, Members(spawned), StatsOf(spawned)
      ensures Valid() && PauseKept() && currentScene == Some(activeScene) && gameOver == old(gameOver)
      ensures playerCount == old(playerCount) && aiCount == old(aiCount) && mapIndex == old(mapIndex) && duration == old(duration)
      ensures loaded <==> old(currentScene) != Some(activeScene) && Contains(activeScene, MatchScenePrefix)
      ensures threw ==> loaded
      ensures loaded && !threw ==> ClockStarted() && SpawnStopped(spawned, old(roster), roster, AreaOf(playableArea), ParticipantCount(), prefabCount, false)
      ensures !loaded ==> roster == old(roster) && ClockKept() && tilemap.tiles == old(tilemap.tiles)
    {
      loaded, threw := false, false;
      if currentScene != Some(activeScene) {
        currentScene := Some(activeScene);
        if Contains(activeScene, MatchScenePrefix) {
          loaded := true;
          threw := LoadMultiplayerMap(lo, hi, roll, spawned);
          if !threw {
            StartClock();
          }
        }
      }
    }

    /**
     * Update, one frame: the scene check, then, in a match scene whose match is not
     * over, MatchTick. A load that throws ends the frame there.
     */
    method Update(activeScene: string, cancel: bool, dt: real, lo: Cell, hi: Cell, roll: Cell -> int, spawned: seq<Participant>)
      returns (loaded: bool, ticked: bool, threw: bool, outroStarted: bool)
      requires Valid() && Instances(spawned) && ParticipantCount() <= |spawned|
      modifies this, tilemap, Members(spawned), StatsOf(spawned)
      ensures Valid() && currentScene == Some(activeScene)
      ensures playerCount == old(playerCount) && aiCount == old(aiCount) && mapIndex == old(mapIndex) && duration == old(duration)
      ensures loaded <==> old(currentScene) != Some(activeScene) && Contains(activeScene, MatchScenePrefix)
      ensures ticked ==> Contains(activeScene, MatchScenePrefix) && !old(gameOver)
      ensures !threw ==> (ticked <==> Contains(activeScene, MatchScenePrefix) && !old(gameOver))
      ensures !ticked ==> !outroStarted && gameOver == old(gameOver) && PauseKept()
      ensures !ticked && !loaded ==> roster == old(roster) && ClockKept()
      ensures outroStarted ==> gameOver && timeScale == 0.3
    {
      ticked, outroStarted := false, false;
      loaded, threw := EnterScene(activeScene, lo, hi, roll, spawned);
      if threw {
        return;
      }
      if Contains(activeScene, MatchScenePrefix) && !gameOver {
        threw, outroStarted := MatchTick(cancel, dt);
        ticked := true;
      }
    }

    /** FinishGameAnimation after its two waits: normal speed, an empty roster, and no game over. */
    method FinishOutro()
      requires Valid()
      modifies this
      ensures Valid() && LobbyKept() && gameIsPaused == old(gameIsPaused)
      ensures timeScale == 1.0 && roster == [] && !gameOver
      ensures remaining == old(remaining) && cueIndex == old(cueIndex)
    {
      timeScale := 1.0;
      roster := [];
      gameOver := false;
    }
  }

  /** The zones among the first k corners that n participants clear, in order. */
  function ClearedZonesBelow(area: Area, n: int, k: int): seq<seq<Cell>>
    decreases k
  {
    if k <= 0 then [] else ClearedZonesBelow(area, n, k - 1) + (if CornerCleared(n, k - 1) && k <= 4 then [SpawnZone(area, k - 1)] else [])
  }
}
