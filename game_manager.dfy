/**
 * Assets/Scripts/Interface/GameManager.cs: the match controller of the networked
 * version. It builds the arena when a multiplayer scene loads, admits up to four
 * participants into the corner spawn zones, runs the countdown and the elimination
 * check every frame, and holds the lobby settings the menu buttons change.
 */
module GameManager {
  import opened Common
  import opened Grid
  import opened Vectors
  import opened Units
  import opened Movement
  import opened Match

  /** multiplayerScenePrefix */
  const MatchScenePrefix: string := "MP_"

  /** The most participants a match admits. */
  const MaxParticipants: int := 4

  datatype ButtonAction =
    | Unknown
    | SwitchInterface
    | QuitGame
    | StartGame
    | ModifyMap
    | ModifyMatchDuration
    | ModifyPlayerNumber
    | ModifyAINumber
    | ToggleSoundtrack
    | ToggleTouchControls
    | TogglePause
    | ReturnToMainMenu
    | Back

  /** The duration button: 3, 6, ..., 18 minutes and back to 3. */
  function NextDuration(d: int): int {
    if d + 3 <= 20 then d + 3 else 3
  }

  predicate ValidDuration(d: int) {
    3 <= d <= 18 && d % 3 == 0
  }

  /** The duration stays a multiple of three between 3 and 18, and 18 wraps round to 3. */
  lemma DurationCycle(d: int)
    requires ValidDuration(d)
    ensures ValidDuration(NextDuration(d))
    ensures NextDuration(d) == (if d == 18 then 3 else d + 3)
  {
  }

  /** The StartGame button is enabled for two to four participants, or on a network map whatever the counts. */
  predicate StartEnabled(players: int, ais: int, scene: string) {
    (2 <= players + ais <= 4) || Contains(ToLower(scene), "network")
  }

  /** A map whose name contains "Network" zeroes both counts and still lets the match start. */
  lemma NetworkMapStartable(scene: string)
    requires Contains(scene, "Network")
    ensures StartEnabled(0, 0, scene)
  {
    ContainsToLower(scene, "Network");
    assert ToLower("Network") == "network";
  }

  /** What AddParticipant did with the object it was given. */
  datatype Admission = AlreadyListed | NoParticipantStats | TooMany | Admitted

  class GameManager {
    var gameIsPaused: bool
    /** Time.timeScale */
    var timeScale: real
    const tilemap: Tilemap
    var playableArea: Bounds
    var zones: seq<seq<Cell>>
    /** participantProperties[i].teamTag */
    const teamTags: seq<string>
    /** multiplayerScenes */
    const scenes: seq<string>
    /** currentlyLoadedScene, null before the first frame. */
    var currentScene: Option<string>
    var playerCount: int
    var aiCount: int
    var mapIndex: int
    var duration: int
    var enoughPlayersJoined: bool
    var localPlayerCount: int
    /** currentlyAliveParticipants */
    var roster: seq<Participant>
    var remaining: real
    var cueIndex: int
    var gameOver: bool

    /** The ranges every method keeps. */
    predicate Valid()
      reads this
    {
      IsZoneTable(zones) && |teamTags| >= MaxParticipants &&
      0 <= mapIndex < |scenes| && 0 <= playerCount <= 4 && 0 <= aiCount <= 4 &&
      ValidDuration(duration) && -1 <= cueIndex < |KeyMoments| && |roster| <= MaxParticipants
    }

    /** The field initialisers; the lobby starts on map 2, so there are at least three maps. */
    constructor (tilemap: Tilemap, teamTags: seq<string>, scenes: seq<string>)
      requires |teamTags| >= MaxParticipants && |scenes| >= 3
      ensures Valid()
      ensures this.tilemap == tilemap && this.teamTags == teamTags && this.scenes == scenes
      ensures !gameIsPaused && timeScale == 1.0 && currentScene.None?
      ensures playerCount == 2 && aiCount == 2 && mapIndex == 2 && duration == 3
      ensures !enoughPlayersJoined && localPlayerCount == 0 && roster == [] && !gameOver
    {
      gameIsPaused := false;
      timeScale := 1.0;
      this.tilemap := tilemap;
      playableArea := DefaultBounds;
      zones := [[(0, 0), (0, 0), (0, 0)], [(0, 0), (0, 0), (0, 0)], [(0, 0), (0, 0), (0, 0)], [(0, 0), (0, 0), (0, 0)]];
      this.teamTags := teamTags;
      this.scenes := scenes;
      currentScene := None;
      playerCount := 2;
      aiCount := 2;
      mapIndex := 2;
      duration := 3;
      enoughPlayersJoined := false;
      localPlayerCount := 0;
      roster := [];
      remaining := 0.0;
      cueIndex := 0;
      gameOver := false;
    }

    /** The lobby settings are as they were. */
    twostate predicate LobbyKept()
      reads this
    {
      playerCount == old(playerCount) && aiCount == old(aiCount) && mapIndex == old(mapIndex) &&
      duration == old(duration) && currentScene == old(currentScene)
    }

    /** The arena and the joining state are as they were. */
    twostate predicate ArenaKept()
      reads this
    {
      playableArea == old(playableArea) && zones == old(zones) && localPlayerCount == old(localPlayerCount) &&
      enoughPlayersJoined == old(enoughPlayersJoined)
    }

    /** The clock and the end of the match are as they were. */
    twostate predicate ClockKept()
      reads this
    {
      remaining == old(remaining) && cueIndex == old(cueIndex) && gameOver == old(gameOver)
    }

    twostate predicate PauseKept()
      reads this
    {
      gameIsPaused == old(gameIsPaused) && timeScale == old(timeScale)
    }

    /**
     * LoadMultiplayerMap. playableArea is what the scan of the tilemap's bounds leaves
     * through the BoundsInt setters (the rectangle of a margin frame, by FrameArea); the
     * interior of what its getters read back is filled at random; the zones are laid out
     * in the corners of that rectangle; and the roster starts again with one freshly instantiated participant per
     * local player, each admitted as a local player. enoughPlayersJoined is not reset.
     */
    method LoadMultiplayerMap(lo: Cell, hi: Cell, roll: Cell -> int, spawned: seq<Participant>)
      requires Valid() && Spawnable(spawned, playerCount)
      modifies this, tilemap, Members(spawned), StatsOf(spawned), MoversOf(spawned)
      ensures Valid() && LobbyKept() && ClockKept() && PauseKept()
      ensures playableArea == BlockScan(old(tilemap.tiles), lo.0, hi.0 + 1, lo.1, hi.1, old(playableArea))
      ensures zones == SpawnZones(AreaOf(playableArea))
      ensures roster == spawned[..playerCount] && localPlayerCount == playerCount
      ensures enoughPlayersJoined == (old(enoughPlayersJoined) || playerCount >= 2)
      ensures Arranged(tilemap.tiles, old(tilemap.tiles), AreaOf(playableArea), roll, zones[..playerCount])
      ensures forall j :: 0 <= j < playerCount ==> Seated(spawned[j], j, teamTags[j], zones[j])
    {
      BuildArena(lo, hi, roll);
      ghost var filled := tilemap.tiles;
      roster := [];
      localPlayerCount := 0;
      SeatAll(spawned);
      ArrangedByClearing(old(tilemap.tiles), filled, AreaOf(playableArea), roll, zones[..playerCount]);
    }

    /** The map generation part of LoadMultiplayerMap: the area scan, the fill, and the zones in the new corners. */
    method BuildArena(lo: Cell, hi: Cell, roll: Cell -> int)
      requires Valid()
      modifies this, tilemap
      ensures Valid() && LobbyKept() && ClockKept() && PauseKept() && roster == old(roster)
      ensures enoughPlayersJoined == old(enoughPlayersJoined) && localPlayerCount == old(localPlayerCount)
      ensures playableArea == BlockScan(old(tilemap.tiles), lo.0, hi.0 + 1, lo.1, hi.1, old(playableArea))
      ensures zones == SpawnZones(AreaOf(playableArea))
      ensures forall c :: TileAt(tilemap.tiles, c) == FillTile(old(tilemap.tiles), AreaOf(playableArea), roll, c)
    {
      playableArea := FindPlayableArea(tilemap.tiles, lo, hi, playableArea);
      FillInterior(tilemap, AreaOf(playableArea), roll);
      zones := SpawnZones(AreaOf(playableArea));
    }

    /**
     * The scene check at the top of Update. A newly active scene becomes the loaded one;
     * a match scene (its name contains the prefix) is then built, its countdown set to the
     * duration in seconds, and the key-moment index set to the last moment the countdown
     * has not yet passed (the first one when all are).
     */
    method EnterScene(activeScene: string, lo: Cell, hi: Cell, roll: Cell -> int, spawned: seq<Participant>)
      returns (loaded: bool)
      requires Valid() && Spawnable(spawned, playerCount)
      modifies this, tilemap, Members(spawned), StatsOf(spawned), MoversOf(spawned)
      ensures Valid() && PauseKept() && currentScene == Some(activeScene) && gameOver == old(gameOver)
      ensures playerCount == old(playerCount) && aiCount == old(aiCount) && mapIndex == old(mapIndex) && duration == old(duration)
      ensures loaded <==> old(currentScene) != Some(activeScene) && Contains(activeScene, MatchScenePrefix)
      ensures loaded ==>
        roster == spawned[..playerCount] && zones == SpawnZones(AreaOf(playableArea)) && ClockStarted()
      ensures !loaded ==>
        roster == old(roster) && ArenaKept() && ClockKept() && tilemap.tiles == old(tilemap.tiles)
    {
      loaded := false;
      if currentScene != Some(activeScene) {
        currentScene := Some(activeScene);
        if Contains(activeScene, MatchScenePrefix) {
          LoadMultiplayerMap(lo, hi, roll, spawned);
          StartClock();
          loaded := true;
        }
      }
    }

    /** The countdown is the match duration in seconds, and the key-moment index is the last moment it has not passed (or the first). */
    predicate ClockStarted()
      reads this
    {
      remaining == (duration * 60) as real && 0 <= cueIndex < |KeyMoments| &&
      (cueIndex == 0 || KeyMoments[cueIndex] < remaining) &&
      (forall k :: cueIndex < k < |KeyMoments| ==> KeyMoments[k] >= remaining)
    }

    method StartClock()
      requires Valid()
      modifies this
      ensures Valid() && ClockStarted() && gameOver == old(gameOver) && LobbyKept() && ArenaKept() && PauseKept()
      ensures roster == old(roster)
    {
      remaining := (duration * 60) as real;
      cueIndex := FirstCue(remaining);
    }

    /**
     * Update, one frame: the scene check, then, in a match scene whose match is not
     * over, MatchTick. Only a match frame can throw or start the outro.
     */
    method Update(activeScene: string, cancel: bool, dt: real, lo: Cell, hi: Cell, roll: Cell -> int, spawned: seq<Participant>)
      returns (loaded: bool, ticked: bool, threw: bool, outroStarted: bool)
      requires Valid() && Spawnable(spawned, playerCount)
      modifies this, tilemap, Members(spawned), StatsOf(spawned), MoversOf(spawned)
      ensures Valid() && currentScene == Some(activeScene)
      ensures playerCount == old(playerCount) && aiCount == old(aiCount) && mapIndex == old(mapIndex) && duration == old(duration)
      ensures loaded <==> old(currentScene) != Some(activeScene) && Contains(activeScene, MatchScenePrefix)
      ensures ticked <==> Contains(activeScene, MatchScenePrefix) && !old(gameOver)
      ensures !ticked ==> !threw && !outroStarted && gameOver == old(gameOver) && PauseKept()
      ensures !ticked && !loaded ==> roster == old(roster) && ArenaKept() && ClockKept()
      ensures outroStarted ==> gameOver && timeScale == 0.3
    {
      loaded := EnterScene(activeScene, lo, hi, roll, spawned);
      ticked, threw, outroStarted := false, false, false;
      if Contains(activeScene, MatchScenePrefix) && !gameOver {
        threw, outroStarted := MatchTick(cancel, dt);
        ticked := true;
      }
    }

    /** The spawning loop: participant i is admitted as local player i, into zone i. */
    method SeatAll(spawned: seq<Participant>)
      requires Valid() && Spawnable(spawned, playerCount) && roster == [] && localPlayerCount == 0
      modifies this, tilemap, Members(spawned), StatsOf(spawned), MoversOf(spawned)
      ensures Valid() && LobbyKept() && ClockKept() && PauseKept() && playableArea == old(playableArea) && zones == old(zones)
      ensures roster == spawned[..playerCount] && localPlayerCount == playerCount
      ensures enoughPlayersJoined == (old(enoughPlayersJoined) || playerCount >= 2)
      ensures tilemap.tiles == ClearZones(old(tilemap.tiles), zones[..playerCount])
      ensures SeatedUpTo(spawned, playerCount)
    {
      var i := 0;
      while i < playerCount
        invariant 0 <= i <= playerCount
        invariant Valid() && LobbyKept() && ClockKept() && PauseKept() && playableArea == old(playableArea) && zones == old(zones)
        invariant roster == spawned[..i] && localPlayerCount == i
        invariant enoughPlayersJoined == (old(enoughPlayersJoined) || i >= 2)
        invariant tilemap.tiles == ClearZones(old(tilemap.tiles), zones[..i])
        invariant SeatedUpTo(spawned, i) && NoneDestroyed(spawned, i)
      {
        ClearZonesSnoc(old(tilemap.tiles), zones, i);
        SeatNext(spawned, i);
        i := i + 1;
      }
    }

    /** The participants before index i are seated in their zones with their numbers. */
    predicate SeatedUpTo(spawned: seq<Participant>, i: int)
      requires IsZoneTable(zones) && |teamTags| >= MaxParticipants
      reads this, Members(spawned), StatsOf(spawned)
    {
      forall j :: 0 <= j < i && j < |spawned| && j < MaxParticipants ==> Seated(spawned[j], j, teamTags[j], zones[j])
    }

    /**
     * One turn of the spawning loop. A fresh prefab is not listed yet, has participant
     * stats and finds fewer than four in the roster, so AddParticipant admits it.
     */
    method SeatNext(spawned: seq<Participant>, i: int)
      requires Valid() && Prefabs(spawned) && 0 <= i < playerCount <= |spawned|
      requires roster == spawned[..i] && localPlayerCount == i
      requires SeatedUpTo(spawned, i) && NoneDestroyed(spawned, i)
      modifies this, tilemap, Members(spawned), StatsOf(spawned), MoversOf(spawned)
      ensures Valid() && LobbyKept() && ClockKept() && PauseKept() && playableArea == old(playableArea) && zones == old(zones)
      ensures roster == spawned[..i + 1] && localPlayerCount == i + 1
      ensures enoughPlayersJoined == (old(enoughPlayersJoined) || i + 1 >= 2)
      ensures tilemap.tiles == ClearCells(old(tilemap.tiles), zones[i])
      ensures SeatedUpTo(spawned, i + 1) && NoneDestroyed(spawned, i + 1)
    {
      var p := spawned[i];
      assert p !in roster;
      var a := AddParticipant(p, true);
      assert spawned[..i + 1] == roster;
    }

    /**
     * AddParticipant. An object already listed, or one without participant stats, is
     * ignored; a fifth is destroyed. Otherwise it becomes participant number |roster|
     * (and the next local number when local), is named after its team, has its zone
     * cleared, stands on the centre of its zone's first cell with its movement
     * destination there, and joins the roster; from two on the match may start.
     */
    method AddParticipant(p: Participant, local: bool) returns (a: Admission)
      requires Valid() && !p.destroyed
      modifies this, p, StatsObjects(p), MoverObjects(p), tilemap
      ensures Valid() && LobbyKept() && ClockKept() && PauseKept()
      ensures a == AlreadyListed <==> p in old(roster)
      ensures a == NoParticipantStats <==> p !in old(roster) && !HasParticipantStats(p)
      ensures a == TooMany <==> p !in old(roster) && HasParticipantStats(p) && |old(roster)| >= MaxParticipants
      ensures p.destroyed == (a == TooMany)
      ensures a != Admitted ==>
        roster == old(roster) && ArenaKept() && tilemap.tiles == old(tilemap.tiles) && p.position == old(p.position)
      ensures a == Admitted ==> Joined(p, local)
      ensures p.stats.Some? ==> p.stats.value.isAlive == old(p.stats.value.isAlive)
    {
      if p in roster {
        return AlreadyListed;
      }
      if !HasParticipantStats(p) {
        return NoParticipantStats;
      }
      if |roster| >= MaxParticipants {
        p.destroyed := true;
        return TooMany;
      }
      Admit(p, local);
      return Admitted;
    }

    /** What admitting p does, as seen from the state before and after. */
    twostate predicate Joined(p: Participant, local: bool)
      requires old(Valid()) && old(|roster|) < MaxParticipants && HasParticipantStats(p)
      reads this, p, p.stats.value, MoverObjects(p), tilemap
    {
      var i := old(|roster|);
      var s := p.stats.value;
      s.participantNumber == i &&
      (local ==> s.localParticipantNumber == old(localPlayerCount) && localPlayerCount == old(localPlayerCount) + 1) &&
      (!local ==> s.localParticipantNumber == old(s.localParticipantNumber) && localPlayerCount == old(localPlayerCount)) &&
      (p.hasAnimator ==> p.tag == teamTags[i] && p.name == ParticipantPrefix + teamTags[i]) &&
      tilemap.tiles == ClearCells(old(tilemap.tiles), old(zones)[i]) &&
      p.position == CellCenter(old(zones)[i][0]) &&
      (p.mover.Some? ==> p.mover.value.destination == p.position) &&
      roster == old(roster) + [p] &&
      enoughPlayersJoined == (old(enoughPlayersJoined) || |roster| >= 2) &&
      playableArea == old(playableArea) && zones == old(zones)
    }

    /** The admitting branch of AddParticipant. */
    method Admit(p: Participant, local: bool)
      requires Valid() && !p.destroyed && p !in roster && HasParticipantStats(p) && |roster| < MaxParticipants
      modifies this, p, p.stats.value, MoverObjects(p), tilemap
      ensures Valid() && !p.destroyed && LobbyKept() && ClockKept() && PauseKept()
      ensures Joined(p, local)
      ensures p.stats.value.isAlive == old(p.stats.value.isAlive)
    {
      var i := |roster|;
      Equip(p, i, if local then Some(localPlayerCount) else None, teamTags[i], tilemap, zones[i]);
      if local {
        localPlayerCount := localPlayerCount + 1;
      }
      roster := roster + [p];
      if |roster| >= 2 {
        enoughPlayersJoined := true;
      }
    }

    /** Time freezes while paused. */
    method TogglePauseGame()
      modifies this
      ensures gameIsPaused == !old(gameIsPaused)
      ensures timeScale == (if gameIsPaused then 0.0 else 1.0)
      ensures roster == old(roster) && LobbyKept() && ArenaKept() && ClockKept()
    {
      gameIsPaused := !gameIsPaused;
      timeScale := if gameIsPaused then 0.0 else 1.0;
    }

    /**
     * ButtonPress, for the actions that change the manager's state; the result is the
     * interactable state it gives the StartGame button, when it sets one. SwitchInterface,
     * Back, the toggles of soundtrack and touch controls, StartGame and QuitGame only
     * reach the interface, the audio, the scene loader or the application.
     */
    method ButtonPress(action: ButtonAction) returns (startEnabled: Option<bool>)
      requires Valid()
      modifies this
      ensures Valid() && roster == old(roster) && ArenaKept() && ClockKept() && currentScene == old(currentScene)
      ensures mapIndex == (if action == ModifyMap then NextIndex(old(mapIndex), |scenes|) else old(mapIndex))
      ensures duration == (if action == ModifyMatchDuration then NextDuration(old(duration)) else old(duration))
      ensures action in {ModifyPlayerNumber, ModifyAINumber} && Contains(scenes[mapIndex], "Network") ==>
        playerCount == 0 && aiCount == 0
      ensures action in {ModifyPlayerNumber, ModifyAINumber} && !Contains(scenes[mapIndex], "Network") ==>
        playerCount == (if action == ModifyPlayerNumber then NextCount(old(playerCount)) else old(playerCount)) &&
        aiCount == (if action == ModifyAINumber then NextCount(old(aiCount)) else old(aiCount))
      ensures action !in {ModifyPlayerNumber, ModifyAINumber} ==> playerCount == old(playerCount) && aiCount == old(aiCount)
      ensures startEnabled.Some? <==> action in {ModifyPlayerNumber, ModifyAINumber}
      ensures startEnabled.Some? ==> startEnabled.value == StartEnabled(playerCount, aiCount, scenes[mapIndex])
      ensures action in {TogglePause, ReturnToMainMenu} ==>
        gameIsPaused == !old(gameIsPaused) && timeScale == (if gameIsPaused then 0.0 else 1.0)
      ensures action !in {TogglePause, ReturnToMainMenu} ==> PauseKept()
    {
      startEnabled := None;
      match action
      case ModifyMap =>
        mapIndex := NextIndex(mapIndex, |scenes|);
      case ModifyMatchDuration =>
        DurationCycle(duration);
        duration := NextDuration(duration);
      case ModifyPlayerNumber =>
        startEnabled := ModifyCount(true);
      case ModifyAINumber =>
        startEnabled := ModifyCount(false);
      case TogglePause =>
        TogglePauseGame();
      case ReturnToMainMenu =>
        TogglePauseGame();
      case _ =>
    }

    /** The shared branch of the player and AI buttons. */
    method ModifyCount(players: bool) returns (startEnabled: Option<bool>)
      requires Valid()
      modifies this
      ensures Valid() && roster == old(roster) && ArenaKept() && ClockKept() && PauseKept()
      ensures mapIndex == old(mapIndex) && duration == old(duration) && currentScene == old(currentScene)
      ensures Contains(scenes[mapIndex], "Network") ==> playerCount == 0 && aiCount == 0
      ensures !Contains(scenes[mapIndex], "Network") ==>
        playerCount == (if players then NextCount(old(playerCount)) else old(playerCount)) &&
        aiCount == (if players then old(aiCount) else NextCount(old(aiCount)))
      ensures startEnabled == Some(StartEnabled(playerCount, aiCount, scenes[mapIndex]))
    {
      if Contains(scenes[mapIndex], "Network") {
        aiCount := 0;
        playerCount := 0;
      } else if players {
        playerCount := NextCount(playerCount);
      } else {
        aiCount := NextCount(aiCount);
      }
      startEnabled := Some(StartEnabled(playerCount, aiCount, scenes[mapIndex]));
    }

    /**
     * One frame of a running match (gameOver still false): Cancel toggles the pause;
     * once enough players have joined, the roster loop runs with the winner text as
     * written, and unless it threw the clock ticks.
     */
    method MatchTick(cancel: bool, dt: real) returns (threw: bool, outroStarted: bool)
      requires Valid() && !gameOver
      modifies this
      ensures Valid() && LobbyKept() && ArenaKept()
      ensures cancel ==> gameIsPaused == !old(gameIsPaused)
      ensures !cancel ==> gameIsPaused == old(gameIsPaused)
      ensures !enoughPlayersJoined ==> !threw && !outroStarted && roster == old(roster) && ClockKept()
      ensures enoughPlayersJoined ==>
        var e := old(RosterPass(roster, 0, false, WinnerAsWritten));
        roster == e.roster && threw == e.threw &&
        (threw ==> !outroStarted && gameOver == e.over && remaining == old(remaining) && cueIndex == old(cueIndex)) &&
        (!threw ==> Ticked(dt, e.over, outroStarted))
      ensures !outroStarted ==> timeScale == (if cancel then (if gameIsPaused then 0.0 else 1.0) else old(timeScale))
    {
      threw, outroStarted := false, false;
      // The roster loop only reads the participants, so it may be evaluated before the pause toggle.
      RosterPassKeepsLiving(roster, 0, false, WinnerAsWritten);
      var r, over, failed := EliminationPass(roster, false, WinnerAsWritten);
      if cancel {
        TogglePauseGame();
      }
      if enoughPlayersJoined {
        threw, outroStarted := Conclude(PassEnd(r, over, failed), dt);
      }
    }

    /** The rest of a frame once the roster loop has ended: its outcome is kept, and unless it threw the clock ticks. */
    method Conclude(e: PassEnd, dt: real) returns (threw: bool, outroStarted: bool)
      requires Valid() && |e.roster| <= MaxParticipants
      modifies this
      ensures Valid() && LobbyKept() && ArenaKept() && gameIsPaused == old(gameIsPaused)
      ensures roster == e.roster && threw == e.threw
      ensures threw ==> !outroStarted && gameOver == e.over && remaining == old(remaining) && cueIndex == old(cueIndex)
      ensures !threw ==> Ticked(dt, e.over, outroStarted)
      ensures !outroStarted ==> timeScale == old(timeScale)
    {
      roster, gameOver := e.roster, e.over;
      threw, outroStarted := e.threw, false;
      if !threw {
        outroStarted := TickClock(dt);
      }
    }

    /**
     * The clock part of a frame: one frame off the countdown, the due key moment
     * announced (the last one ends the match in a draw), and a finished match starts
     * the outro, whose first part slows time to 0.3.
     */
    twostate predicate Ticked(dt: real, wasOver: bool, outroStarted: bool)
      reads this
    {
      var due := CueDue(remaining, old(cueIndex));
      remaining == Countdown(old(remaining), dt) &&
      cueIndex == (if due then old(cueIndex) - 1 else old(cueIndex)) &&
      gameOver == (wasOver || (due && old(cueIndex) == 0)) &&
      outroStarted == gameOver &&
      (outroStarted ==> timeScale == 0.3)
    }

    method TickClock(dt: real) returns (outroStarted: bool)
      requires Valid()
      modifies this
      ensures Valid() && LobbyKept() && ArenaKept() && roster == old(roster) && gameIsPaused == old(gameIsPaused)
      ensures Ticked(dt, old(gameOver), outroStarted)
      ensures !outroStarted ==> timeScale == old(timeScale)
    {
      remaining := Countdown(remaining, dt);
      if CueDue(remaining, cueIndex) {
        if cueIndex == 0 {
          gameOver := true;
        }
        cueIndex := cueIndex - 1;
      }
      outroStarted := gameOver;
      if gameOver {
        timeScale := 0.3;
      }
    }

    /** FinishGameAnimation after its two waits: normal speed, an empty roster, and no game over. */
    method FinishOutro()
      requires Valid()
      modifies this
      ensures Valid() && LobbyKept() && ArenaKept() && gameIsPaused == old(gameIsPaused)
      ensures timeScale == 1.0 && roster == [] && !gameOver
      ensures remaining == old(remaining) && cueIndex == old(cueIndex)
    {
      timeScale := 1.0;
      roster := [];
      gameOver := false;
    }
  }

  /** MoverObjects for a whole list. */
  function MoversOf(s: seq<Participant>): set<MovementController> {
    set p | p in s && p.mover.Some? :: p.mover.value
  }

  /**
   * Freshly instantiated participant prefabs, at least n of them: each with its
   * participant stats, none destroyed, and no two sharing an object or a stats component.
   */
  predicate Spawnable(spawned: seq<Participant>, n: int)
    reads Members(spawned)
  {
    n <= |spawned| && Prefabs(spawned) && NoneDestroyed(spawned, 0)
  }

  /** Distinct participants, each with its own participant stats (all fixed at instantiation). */
  predicate Prefabs(spawned: seq<Participant>) {
    (forall i :: 0 <= i < |spawned| ==> HasParticipantStats(spawned[i])) &&
    (forall i, j :: 0 <= i < j < |spawned| ==> spawned[i] != spawned[j] && spawned[i].stats != spawned[j].stats)
  }

  predicate NoneDestroyed(spawned: seq<Participant>, from: int)
    reads Members(spawned)
  {
    forall j :: from <= j < |spawned| && 0 <= j ==> !spawned[j].destroyed
  }

  /** Participant number `number`, local player `number`, named after its team, on the first cell of its zone. */
  predicate Seated(p: Participant, number: int, teamTag: string, zone: seq<Cell>)
    requires |zone| == 3
    reads p, StatsObjects(p)
  {
    HasParticipantStats(p) && !p.destroyed &&
    p.stats.value.participantNumber == number && p.stats.value.localParticipantNumber == number &&
    (p.hasAnimator ==> p.tag == teamTag && p.name == ParticipantPrefix + teamTag) &&
    p.position == CellCenter(zone[0])
  }

  /** What admission does to the participant itself: its numbers, its name, its place, and its zone cleared. */
  method Equip(p: Participant, number: int, localNumber: Option<int>, teamTag: string, tilemap: Tilemap, zone: seq<Cell>)
    requires HasParticipantStats(p) && |zone| == 3
    modifies p, p.stats.value, MoverObjects(p), tilemap
    ensures Equipped(p, number, localNumber, teamTag, tilemap, zone)
    ensures p.destroyed == old(p.destroyed) && p.stats.value.isAlive == old(p.stats.value.isAlive)
  {
    Enrol(p.stats.value, number, localNumber);
    NameAfterTeam(p, teamTag);
    PlaceInZone(p, tilemap, zone);
  }

  twostate predicate Equipped(p: Participant, number: int, localNumber: Option<int>, teamTag: string, tilemap: Tilemap, zone: seq<Cell>)
    requires HasParticipantStats(p) && |zone| == 3
    reads p, p.stats.value, MoverObjects(p), tilemap
  {
    var s := p.stats.value;
    s.participantNumber == number &&
    s.localParticipantNumber == (if localNumber.Some? then localNumber.value else old(s.localParticipantNumber)) &&
    (p.hasAnimator ==> p.tag == teamTag && p.name == ParticipantPrefix + teamTag) &&
    tilemap.tiles == ClearCells(old(tilemap.tiles), zone) &&
    p.position == CellCenter(zone[0]) &&
    (p.mover.Some? ==> p.mover.value.destination == p.position)
  }

  /** The participant's numbers: its place in the roster, and its place among local players when it is one. */
  method Enrol(s: UnitStats, number: int, localNumber: Option<int>)
    modifies s
    ensures s.participantNumber == number
    ensures s.localParticipantNumber == (if localNumber.Some? then localNumber.value else old(s.localParticipantNumber))
    ensures s.isAlive == old(s.isAlive)
  {
    s.participantNumber := number;
    if localNumber.Some? {
      s.localParticipantNumber := localNumber.value;
    }
  }

  /** Through its Animator (when it has one) the participant takes its team's tag and is named after it. */
  method NameAfterTeam(p: Participant, teamTag: string)
    modifies p
    ensures p.hasAnimator ==> p.tag == teamTag && p.name == ParticipantPrefix + teamTag
    ensures !p.hasAnimator ==> p.tag == old(p.tag) && p.name == old(p.name)
    ensures p.position == old(p.position) && p.destroyed == old(p.destroyed)
  {
    if p.hasAnimator {
      p.tag := teamTag;
      p.name := ParticipantPrefix + p.tag;
    }
  }

  /** The zone is cleared, and the participant stands on the centre of its first cell, its movement heading there. */
  method PlaceInZone(p: Participant, tilemap: Tilemap, zone: seq<Cell>)
    requires |zone| == 3
    modifies p, MoverObjects(p), tilemap
    ensures tilemap.tiles == ClearCells(old(tilemap.tiles), zone)
    ensures p.position == CellCenter(zone[0])
    ensures p.mover.Some? ==> p.mover.value.destination == p.position
    ensures p.tag == old(p.tag) && p.name == old(p.name) && p.destroyed == old(p.destroyed)
  {
    ClearZone(tilemap, zone);
    p.position := CellCenter(zone[0]);
    if p.mover.Some? {
      p.mover.value.destination := p.position;
    }
  }

  /** With the corrected winner text, the roster check of a match with at least two participants cannot throw. */
  lemma TickNeverThrows(roster: seq<Participant>)
    requires |roster| >= 2
    ensures !RosterPass(roster, 0, false, WinnerCorrected).threw
  {
    CorrectedPassNeverThrows(roster, 0, false);
  }
}
