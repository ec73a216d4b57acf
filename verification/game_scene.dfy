/**
 * The gameplay scene (`GameScene`): level selection on entry, per-tick
 * entity updates culled to the camera, the animated score counter, the
 * game-over and level-complete checks, and the pause / resume guards.
 */
module GameScenes {
  import opened Wrappers
  import opened Seqs
  import Players

  /** A world-space rectangle: the camera's `worldView`. */
  datatype View = View(x: int, y: int, width: int, height: int)

  datatype Bounds = Bounds(width: int, height: int)

  /** A culled object: its position, where missing coordinates count as 0. */
  datatype Body = Body(x: Option<int>, y: Option<int>)

  datatype Projectile = Projectile(id: nat, active: bool)

  /** The level manager's tallies, as passed to the overlay scenes. */
  datatype LevelStats = LevelStats(score: int, coins: int, enemiesDefeated: int, timeElapsed: int)

  /** An overlay scene launched over the paused game. */
  datatype Launch =
    | GameOverScene(score: int, level: int, won: bool, coins: int, enemiesDefeated: int, timeElapsed: int)
    | PauseScene(score: int, level: int, fromScene: string)

  /** The grounded flag and velocity the physics engine reports for the player. */
  datatype Motion = Motion(onGround: bool, vx: int, vy: int)

  /**
   * The scene's own state. `running` stands for the physics world and the
   * game loop, which are paused and resumed together.
   */
  datatype Scene = Scene(
    currentLevel: int,
    isPaused: bool,
    running: bool,
    lastHealth: int,
    currentScore: int,
    displayedScore: int,
    player: Players.Player,
    projectiles: seq<Projectile>)

  /** A scene step and the overlays it launched. */
  datatype Stepped = Stepped(scene: Scene, launched: seq<Launch>)

  /** What one `updateEntities` call did: the scene afterwards and which objects it updated. */
  datatype Frame = Frame(
    scene: Scene,
    playerUpdated: bool,
    enemiesUpdated: seq<nat>,
    itemsUpdated: seq<nat>,
    platformsUpdated: seq<nat>,
    projectilesUpdated: seq<Projectile>)

  const CULL_MARGIN: int := 200
  const FALL_LIMIT_Y: int := 800
  const GAME_SCENE_KEY: string := "GameScene"

  /** `init(data)`: the level defaults to 1 only when absent (`??`), and the scene starts unpaused. */
  function Init(s: Scene, level: Option<int>): (r: Scene)
    ensures level.Some? ==> r.currentLevel == level.value
    ensures level.None? ==> r.currentLevel == 1
    ensures !r.isPaused
    ensures r == s.(currentLevel := r.currentLevel, isPaused := false)
  {
    s.(currentLevel := level.GetOr(1), isPaused := false)
  }

  /** `getLevelBounds(n)`: the world size of the three designed levels; any other level gets level 1's. */
  function LevelBounds(level: int): (r: Bounds)
    ensures level == 2 ==> r == Bounds(1280, 2560)
    ensures level == 3 ==> r == Bounds(3000, 800)
    ensures level != 2 && level != 3 ==> r == Bounds(2000, 600)
    ensures r.width > 0 && r.height > 0
  {
    if level == 1 then Bounds(2000, 600)
    else if level == 2 then Bounds(1280, 2560)
    else if level == 3 then Bounds(3000, 800)
    else Bounds(2000, 600)
  }

  // ---------------------------------------------------------------------
  // Score counter
  // ---------------------------------------------------------------------

  /** The ceiling of d / 10, for any sign of d. */
  function CeilTenth(d: int): (r: int)
    ensures 10 * r >= d && 10 * (r - 1) < d
  {
    -((-d) / 10)
  }

  /**
   * One tick of the score animation: the displayed score moves toward the
   * real one by at least 1 and about a tenth of the gap, never past it.
   */
  function ScoreStep(displayed: int, current: int): (r: int)
    ensures displayed == current ==> r == displayed
    ensures displayed < current ==> displayed < r <= current
    ensures displayed < current ==> r >= displayed + (current - displayed) / 10
    ensures displayed < current ==>
      10 * (r - displayed) >= current - displayed && 10 * (r - displayed - 1) < current - displayed
    ensures displayed > current ==> r == current
  {
    if current == displayed then displayed
    else
      var inc := if CeilTenth(current - displayed) < 1 then 1 else CeilTenth(current - displayed);
      if displayed + inc > current then current else displayed + inc
  }

  /** The displayed score after `n` ticks. */
  function ScoreAfter(displayed: int, current: int, n: nat): int
    decreases n
  {
    if n == 0 then displayed else ScoreAfter(ScoreStep(displayed, current), current, n - 1)
  }

  /**
   * The counter catches up: from any displayed value at or below the real
   * score it reaches it within `current - displayed` ticks and then stays.
   */
  lemma {:induction false} ScoreConverges(displayed: int, current: int, n: nat)
    requires displayed <= current
    requires n >= current - displayed
    ensures ScoreAfter(displayed, current, n) == current
    decreases n
  {
    if n > 0 {
      ScoreConverges(ScoreStep(displayed, current), current, n - 1);
    }
  }

  /** A displayed score never overshoots: every tick keeps it at or below the real score. */
  lemma {:induction false} ScoreNeverOvershoots(displayed: int, current: int, n: nat)
    requires displayed <= current
    ensures displayed <= ScoreAfter(displayed, current, n) <= current
    decreases n
  {
    if n > 0 {
      ScoreNeverOvershoots(ScoreStep(displayed, current), current, n - 1);
    }
  }

  /** From 0 toward 100 the counter shows 10, 19, 28; from 95 toward 100 it shows 96. */
  lemma ScoreExamples()
    ensures ScoreStep(0, 100) == 10 && ScoreStep(10, 100) == 19 && ScoreStep(19, 100) == 28
    ensures ScoreStep(95, 100) == 96
    ensures ScoreStep(120, 100) == 100
  {
  }

  // ---------------------------------------------------------------------
  // Culling
  // ---------------------------------------------------------------------

  /** How far `v` lies outside the interval from `lo` to `lo + len`; 0 inside it. */
  function DistanceOutside(lo: int, len: nat, v: int): nat {
    if v < lo then lo - v else if v > lo + len then v - (lo + len) else 0
  }

  /**
   * The culling test: inside the camera view grown by the margin on every
   * side, edges included; a missing coordinate counts as 0. For a view of
   * non-negative size, in view means no more than the margin off screen on
   * either axis.
   */
  function IsInView(view: View, b: Body): (r: bool)
    ensures view.width >= 0 && view.height >= 0 ==>
      (r <==> (DistanceOutside(view.x, view.width, b.x.GetOr(0)) <= CULL_MARGIN &&
               DistanceOutside(view.y, view.height, b.y.GetOr(0)) <= CULL_MARGIN))
  {
    var x := b.x.GetOr(0);
    var y := b.y.GetOr(0);
    && view.x - CULL_MARGIN <= x <= view.x + view.width + CULL_MARGIN
    && view.y - CULL_MARGIN <= y <= view.y + view.height + CULL_MARGIN
  }

  /** Anything on screen is updated; anything further than the margin off screen is not. */
  lemma InViewMeansNearScreen(view: View, px: int, py: int)
    requires view.width >= 0 && view.height >= 0
    ensures view.x <= px <= view.x + view.width && view.y <= py <= view.y + view.height ==>
      IsInView(view, Body(Some(px), Some(py)))
    ensures px < view.x - 200 || px > view.x + view.width + 200 ==> !IsInView(view, Body(Some(px), Some(py)))
    ensures py < view.y - 200 || py > view.y + view.height + 200 ==> !IsInView(view, Body(Some(px), Some(py)))
    ensures IsInView(view, Body(None, None)) <==> IsInView(view, Body(Some(0), Some(0)))
  {
  }

  /** The indices, in order, of the bodies inside the culling rectangle. */
  function InViewIndices(view: View, bodies: seq<Body>, from: nat): (r: seq<nat>)
    requires from <= |bodies|
    ensures forall i :: i in r <==> from <= i < |bodies| && IsInView(view, bodies[i])
    ensures forall k :: 0 < k < |r| ==> r[k - 1] < r[k]
    ensures forall k :: 0 <= k < |r| ==> from <= r[k]
    decreases |bodies| - from
  {
    if from == |bodies| then []
    else
      var rest := InViewIndices(view, bodies, from + 1);
      if IsInView(view, bodies[from]) then [from] + rest else rest
  }

  /** The predicate `projectiles.filter` keeps by. */
  predicate IsActiveProjectile(p: Projectile) { p.active }

  /** `projectiles.filter(p => p.active)`: the active ones, in their order and multiplicity. */
  function ActiveOnly(ps: seq<Projectile>): (r: seq<Projectile>)
    ensures r == Filter(ps, IsActiveProjectile)
    ensures forall p :: p in r <==> p in ps && p.active
    ensures |r| == Count(ps, IsActiveProjectile)
    ensures forall k :: 0 <= k < |r| ==> r[k].active
  {
    FilterLength(ps, IsActiveProjectile);
    if |ps| == 0 then []
    else
      assert ps == [ps[0]] + ps[1..];
      FilterCons(ps[0], ps[1..], IsActiveProjectile);
      if ps[0].active then [ps[0]] + ActiveOnly(ps[1..])
      else ActiveOnly(ps[1..])
  }

  /** Filtering the list again changes nothing: the projectiles kept are exactly the active ones. */
  lemma {:induction false} ActiveOnlyIdempotent(ps: seq<Projectile>)
    ensures ActiveOnly(ActiveOnly(ps)) == ActiveOnly(ps)
    decreases |ps|
  {
    if |ps| > 0 {
      ActiveOnlyIdempotent(ps[1..]);
      if ps[0].active {
        assert ([ps[0]] + ActiveOnly(ps[1..]))[1..] == ActiveOnly(ps[1..]);
      }
    }
  }

  /**
   * `updateEntities(delta)`: nothing while paused. Otherwise the player is
   * always updated, enemies, items and platforms only inside the culling
   * rectangle, active projectiles are updated and inactive ones dropped, and
   * the score counter advances one tick toward the level's score.
   */
  function UpdateEntities(
    s: Scene, delta: int, motion: Motion, view: View,
    enemies: seq<Body>, items: seq<Body>, platforms: seq<Body>, levelScore: int): (r: Frame)
    ensures s.isPaused ==> r == Frame(s, false, [], [], [], [])
    ensures !s.isPaused ==> r.playerUpdated
    ensures !s.isPaused ==> r.scene.player == Players.Update(s.player, delta, motion.onGround, motion.vx, motion.vy).player
    ensures !s.isPaused ==> forall i :: i in r.enemiesUpdated <==> 0 <= i < |enemies| && IsInView(view, enemies[i])
    ensures !s.isPaused ==> forall i :: i in r.itemsUpdated <==> 0 <= i < |items| && IsInView(view, items[i])
    ensures !s.isPaused ==> forall i :: i in r.platformsUpdated <==> 0 <= i < |platforms| && IsInView(view, platforms[i])
    ensures !s.isPaused ==> forall p :: p in r.scene.projectiles <==> p in s.projectiles && p.active
    ensures !s.isPaused ==> r.scene.projectiles == Filter(s.projectiles, IsActiveProjectile)
    ensures !s.isPaused ==> r.projectilesUpdated == r.scene.projectiles
    ensures !s.isPaused ==> r.scene.currentScore == levelScore
    ensures !s.isPaused ==> r.scene.displayedScore == ScoreStep(s.displayedScore, levelScore)
    ensures r.scene.isPaused == s.isPaused && r.scene.currentLevel == s.currentLevel
    ensures r.scene.lastHealth == s.lastHealth
  {
    if s.isPaused then Frame(s, false, [], [], [], [])
    else
      var player := Players.Update(s.player, delta, motion.onGround, motion.vx, motion.vy).player;
      var kept := ActiveOnly(s.projectiles);
      var s' := s.(player := player, projectiles := kept, currentScore := levelScore,
                   displayedScore := ScoreStep(s.displayedScore, levelScore));
      Frame(s', true, InViewIndices(view, enemies, 0), InViewIndices(view, items, 0),
            InViewIndices(view, platforms, 0), kept)
  }

  // ---------------------------------------------------------------------
  // Pausing and ending
  // ---------------------------------------------------------------------

  /** Stops the world and launches an overlay, unless the scene is already paused. */
  function PauseWith(s: Scene, overlay: Launch): (r: Stepped)
    ensures s.isPaused ==> r == Stepped(s, [])
    ensures !s.isPaused ==> r.scene == s.(isPaused := true, running := false) && r.launched == [overlay]
  {
    if s.isPaused then Stepped(s, []) else Stepped(s.(isPaused := true, running := false), [overlay])
  }

  /** `handleGameOver(won)`: once per pause, launches the game-over overlay with the level's tallies. */
  function HandleGameOver(s: Scene, won: bool, stats: LevelStats): (r: Stepped)
    ensures s.isPaused ==> r == Stepped(s, [])
    ensures !s.isPaused ==> r.scene.isPaused && !r.scene.running
    ensures !s.isPaused ==>
      r.launched == [GameOverScene(stats.score, s.currentLevel, won, stats.coins, stats.enemiesDefeated, stats.timeElapsed)]
    ensures r.scene.player == s.player && r.scene.lastHealth == s.lastHealth
  {
    PauseWith(s, GameOverScene(stats.score, s.currentLevel, won, stats.coins, stats.enemiesDefeated, stats.timeElapsed))
  }

  /** `handleLevelComplete`: the game-over overlay with `won` set, under the same guard. */
  function HandleLevelComplete(s: Scene, stats: LevelStats): (r: Stepped)
    ensures r == HandleGameOver(s, true, stats)
    ensures !s.isPaused ==> |r.launched| == 1 && r.launched[0].GameOverScene? && r.launched[0].won
  {
    PauseWith(s, GameOverScene(stats.score, s.currentLevel, true, stats.coins, stats.enemiesDefeated, stats.timeElapsed))
  }

  /** `openPauseMenu`: once per pause, launches the pause overlay naming this scene. */
  function OpenPauseMenu(s: Scene, stats: LevelStats): (r: Stepped)
    ensures s.isPaused ==> r == Stepped(s, [])
    ensures !s.isPaused ==> r.scene.isPaused && !r.scene.running
    ensures !s.isPaused ==> r.launched == [PauseScene(stats.score, s.currentLevel, "GameScene")]
  {
    PauseWith(s, PauseScene(stats.score, s.currentLevel, GAME_SCENE_KEY))
  }

  /** `resumeGame`: a no-op unless paused; otherwise unpauses and restarts the world. */
  function ResumeGame(s: Scene): (r: Scene)
    ensures !s.isPaused ==> r == s
    ensures s.isPaused ==> !r.isPaused && r.running
    ensures r.player == s.player && r.currentLevel == s.currentLevel
  {
    if !s.isPaused then s else s.(isPaused := false, running := true)
  }

  /** `togglePause`: resumes a paused scene and pauses a running one. */
  function TogglePause(s: Scene, stats: LevelStats): (r: Stepped)
    ensures r.scene.isPaused == !s.isPaused
    ensures s.isPaused ==> r.launched == []
    ensures !s.isPaused ==> |r.launched| == 1 && r.launched[0].PauseScene?
  {
    if s.isPaused then Stepped(ResumeGame(s), []) else OpenPauseMenu(s, stats)
  }

  /** Toggling twice from a running scene pauses it and then brings it back running. */
  lemma ToggleTwice(s: Scene, stats: LevelStats)
    requires !s.isPaused
    ensures var once := TogglePause(s, stats).scene;
      var twice := TogglePause(once, stats).scene;
      once.isPaused && !twice.isPaused && twice.running && twice == s.(running := true)
  {
  }

  /**
   * `checkGameConditions`: the game ends when health has just dropped to 0 or
   * below, when the player fell below the world, or when the time limit ran
   * out; `lastHealth` follows the player's health on every call.
   */
  function CheckGameConditions(s: Scene, playerY: int, withinTime: bool, stats: LevelStats): (r: Stepped)
    ensures r.scene.lastHealth == s.player.health
    ensures r.scene.player == s.player
    ensures var lost := (s.player.health <= 0 && s.lastHealth > 0) || playerY > 800 || !withinTime;
      var over := GameOverScene(stats.score, s.currentLevel, false, stats.coins, stats.enemiesDefeated, stats.timeElapsed);
      && (!s.isPaused && lost ==> r.scene.isPaused && r.launched == [over])
      && (!lost ==> r.launched == [] && r.scene == s.(lastHealth := s.player.health))
    ensures s.isPaused ==> r.launched == [] && r.scene == s.(lastHealth := s.player.health)
    ensures |r.launched| <= 1
  {
    var died := s.player.health <= 0 && s.lastHealth > 0;
    var a := if died then HandleGameOver(s, false, stats) else Stepped(s, []);
    var s1 := a.scene.(lastHealth := s.player.health);
    var b := if playerY > FALL_LIMIT_Y then HandleGameOver(s1, false, stats) else Stepped(s1, []);
    var c := if !withinTime then HandleGameOver(b.scene, false, stats) else Stepped(b.scene, []);
    Stepped(c.scene, a.launched + b.launched + c.launched)
  }

  /** One game-loop tick (lines wired to the loop's update event): entities first, then the end checks. */
  function GameTick(
    s: Scene, delta: int, motion: Motion, view: View,
    enemies: seq<Body>, items: seq<Body>, platforms: seq<Body>,
    playerY: int, withinTime: bool, stats: LevelStats): (r: Stepped)
    ensures r.scene.lastHealth == UpdateEntities(s, delta, motion, view, enemies, items, platforms, stats.score).scene.player.health
    ensures |r.launched| <= 1
  {
    var f := UpdateEntities(s, delta, motion, view, enemies, items, platforms, stats.score);
    CheckGameConditions(f.scene, playerY, withinTime, stats)
  }

  /**
   * Death is announced once: the tick on which health first reaches 0
   * launches the game-over overlay, and the following tick launches nothing
   * even though health is still 0.
   */
  lemma DeathAnnouncedOnce(s: Scene, playerY: int, stats: LevelStats)
    requires !s.isPaused && s.lastHealth > 0 && s.player.health <= 0
    requires playerY <= 800
    ensures var first := CheckGameConditions(s, playerY, true, stats);
      var second := CheckGameConditions(first.scene, playerY, true, stats);
      && |first.launched| == 1 && first.launched[0].GameOverScene? && !first.launched[0].won
      && second.launched == []
  {
  }
}
