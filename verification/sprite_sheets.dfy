/**
 * The sprite-sheet generator script (`generate-sprite-sheets.js`): the
 * layout of one horizontal strip of frames per character, the animation
 * metadata written beside it, and the index arithmetic used while drawing.
 * Pixel drawing itself is not modelled.
 */
module SpriteSheets {
  import opened Wrappers

  /** One animation of a character: its name and frame count (`animations[name].frames`). */
  datatype Animation = Animation(name: string, frames: nat)

  /** A character's sheet settings; `animations` in the object's key order. */
  datatype SheetConfig = SheetConfig(frameWidth: nat, frameHeight: nat, animations: seq<Animation>)

  /** Where one frame is drawn: the animation it belongs to, its index within it, and its top-left corner. */
  datatype Placement = Placement(animation: nat, index: nat, x: int, y: int)

  /** One entry of the metadata file: the sheet frames an animation spans and its playback rate. */
  datatype FrameRange = FrameRange(name: string, start: int, end: int, frameRate: nat)

  datatype Canvas = Canvas(width: int, height: int)

  /** The drawing phases of the jump and attack frames. */
  datatype JumpPhase = Crouch | Rise | Peak | Fall
  datatype AttackPhase = Windup | Strike | Follow | Recover

  const ATTACK_NAME: string := "attack"
  const ATTACK_FRAME_RATE: nat := 12
  const DEFAULT_FRAME_RATE: nat := 10

  /** The player's sheet: 32-pixel frames, idle 8, walk 8, jump 4, attack 6. */
  const PLAYER: SheetConfig := SheetConfig(32, 32, [
    Animation("idle", 8), Animation("walk", 8), Animation("jump", 4), Animation("attack", 6)])
  /** The slime enemy's sheet: idle 4, bounce 6. */
  const SLIME: SheetConfig := SheetConfig(32, 32, [Animation("idle", 4), Animation("bounce", 6)])
  /** The flying enemy's sheet: hover 4, fly 6. */
  const FLYING: SheetConfig := SheetConfig(32, 32, [Animation("hover", 4), Animation("fly", 6)])

  /** The number of frames of all animations, summed in order (`reduce((sum, a) => sum + a.frames, 0)`). */
  function TotalFrames(anims: seq<Animation>): nat
    decreases |anims|
  {
    if |anims| == 0 then 0 else TotalFrames(anims[..|anims| - 1]) + anims[|anims| - 1].frames
  }

  /** The first sheet frame of animation `a`: the frames of all animations before it. */
  function StartOf(anims: seq<Animation>, a: nat): nat
    requires a <= |anims|
  {
    TotalFrames(anims[..a])
  }

  lemma StartStep(anims: seq<Animation>, a: nat)
    requires a < |anims|
    ensures StartOf(anims, a + 1) == StartOf(anims, a) + anims[a].frames
  {
    assert anims[..a + 1][..a] == anims[..a];
  }

  lemma StartOfAll(anims: seq<Animation>)
    ensures StartOf(anims, |anims|) == TotalFrames(anims)
  {
    assert anims[..|anims|] == anims;
  }

  /** The canvas: one frame high and wide enough for every frame side by side. */
  function SheetCanvas(config: SheetConfig): (c: Canvas)
    ensures c.height == config.frameHeight
    ensures c.width == config.frameWidth * TotalFrames(config.animations)
    ensures c.width >= 0
  {
    Canvas(config.frameWidth * TotalFrames(config.animations), config.frameHeight)
  }

  /**
   * The drawing loop: frames are placed left to right in animation order,
   * so the k-th frame drawn sits at x = k * frameWidth and is frame
   * `k - StartOf(a)` of its animation `a`.
   */
  method LayOutFrames(config: SheetConfig) returns (placed: seq<Placement>)
    ensures |placed| == TotalFrames(config.animations)
    ensures forall k :: 0 <= k < |placed| ==> placed[k].x == k * config.frameWidth && placed[k].y == 0
    ensures forall k :: 0 <= k < |placed| ==>
      && placed[k].animation < |config.animations|
      && placed[k].index < config.animations[placed[k].animation].frames
      && StartOf(config.animations, placed[k].animation) + placed[k].index == k
  {
    var anims := config.animations;
    placed := [];
    var currentFrame := 0;
    var a := 0;
    while a < |anims|
      invariant 0 <= a <= |anims|
      invariant currentFrame == |placed| == StartOf(anims, a)
      invariant forall k :: 0 <= k < |placed| ==> placed[k].x == k * config.frameWidth && placed[k].y == 0
      invariant forall k :: 0 <= k < |placed| ==>
        && placed[k].animation < a
        && placed[k].index < anims[placed[k].animation].frames
        && StartOf(anims, placed[k].animation) + placed[k].index == k
    {
      var i := 0;
      while i < anims[a].frames
        invariant 0 <= i <= anims[a].frames
        invariant currentFrame == |placed| == StartOf(anims, a) + i
        invariant forall k :: 0 <= k < |placed| ==> placed[k].x == k * config.frameWidth && placed[k].y == 0
        invariant forall k :: 0 <= k < |placed| ==>
          && placed[k].animation <= a
          && placed[k].index < anims[placed[k].animation].frames
          && StartOf(anims, placed[k].animation) + placed[k].index == k
      {
        placed := placed + [Placement(a, i, currentFrame * config.frameWidth, 0)];
        currentFrame := currentFrame + 1;
        i := i + 1;
      }
      StartStep(anims, a);
      a := a + 1;
    }
    StartOfAll(anims);
  }

  /** The playback rate written for an animation: 12 for the attack, 10 for every other one. */
  function FrameRateFor(name: string): (r: nat)
    ensures name == "attack" ==> r == 12
    ensures name != "attack" ==> r == 10
  {
    if name == ATTACK_NAME then ATTACK_FRAME_RATE else DEFAULT_FRAME_RATE
  }

  /**
   * The metadata loop: a running frame counter gives each animation the
   * inclusive range `start .. start + frames - 1` and then moves past it.
   */
  method BuildMetadata(anims: seq<Animation>) returns (ranges: seq<FrameRange>)
    ensures |ranges| == |anims|
    ensures |ranges| > 0 ==> ranges[0].start == 0
    ensures forall j :: 0 <= j < |ranges| ==> ranges[j].name == anims[j].name
    ensures forall j :: 0 <= j < |ranges| ==> ranges[j].end == ranges[j].start + anims[j].frames - 1
    ensures forall j :: 0 < j < |ranges| ==> ranges[j].start == ranges[j - 1].end + 1
    ensures forall j :: 0 <= j < |ranges| ==> ranges[j].start == StartOf(anims, j)
    ensures forall j :: 0 <= j < |ranges| ==> ranges[j].frameRate == FrameRateFor(anims[j].name)
    ensures |ranges| > 0 ==> ranges[|ranges| - 1].end == TotalFrames(anims) - 1
  {
    ranges := [];
    var currentFrame := 0;
    var a := 0;
    while a < |anims|
      invariant 0 <= a <= |anims|
      invariant |ranges| == a
      invariant currentFrame == StartOf(anims, a)
      invariant forall j :: 0 <= j < a ==> ranges[j] == EntryFor(anims, j)
    {
      ranges := ranges + [FrameRange(anims[a].name, currentFrame, currentFrame + anims[a].frames - 1, FrameRateFor(anims[a].name))];
      StartStep(anims, a);
      currentFrame := currentFrame + anims[a].frames;
      a := a + 1;
    }
    RangesContiguous(anims, ranges);
  }

  /** The metadata entry of animation `j`, placed at its first sheet frame. */
  function EntryFor(anims: seq<Animation>, j: nat): FrameRange
    requires j < |anims|
  {
    FrameRange(anims[j].name, StartOf(anims, j), StartOf(anims, j) + anims[j].frames - 1, FrameRateFor(anims[j].name))
  }

  /** Consecutive entries abut, the first starts at frame 0 and the last ends at the final sheet frame. */
  lemma RangesContiguous(anims: seq<Animation>, ranges: seq<FrameRange>)
    requires |ranges| == |anims|
    requires forall j :: 0 <= j < |anims| ==> ranges[j].start == StartOf(anims, j)
    requires forall j :: 0 <= j < |anims| ==> ranges[j].end == ranges[j].start + anims[j].frames - 1
    ensures |ranges| > 0 ==> ranges[0].start == 0
    ensures forall j :: 0 < j < |ranges| ==> ranges[j].start == ranges[j - 1].end + 1
    ensures |ranges| > 0 ==> ranges[|ranges| - 1].end == TotalFrames(anims) - 1
  {
    forall j | 0 < j < |ranges|
      ensures ranges[j].start == ranges[j - 1].end + 1
    {
      StartStep(anims, j - 1);
    }
    if |ranges| > 0 {
      assert anims[..0] == [];
      StartStep(anims, |anims| - 1);
      StartOfAll(anims);
    }
  }

  /**
   * The player's sheet is 26 frames (832 pixels) wide and its metadata spans
   * 0-7, 8-15, 16-19 and 20-25: the same ranges the player entity plays its
   * idle, walk, jump and attack animations from.
   */
  lemma PlayerSheet()
    ensures TotalFrames(PLAYER.animations) == 26
    ensures SheetCanvas(PLAYER) == Canvas(832, 32)
    ensures StartOf(PLAYER.animations, 0) == 0 && StartOf(PLAYER.animations, 1) == 8
    ensures StartOf(PLAYER.animations, 2) == 16 && StartOf(PLAYER.animations, 3) == 20
  {
    var anims := PLAYER.animations;
    assert anims[..0] == [];
    assert anims[..1][..0] == [];
    assert anims[..2][..1] == anims[..1];
    assert anims[..3][..2] == anims[..2];
    assert anims[..4] == anims;
    assert anims[..4][..3] == anims[..3];
    assert TotalFrames(anims[..1]) == 8;
    assert TotalFrames(anims[..2]) == 16;
    assert TotalFrames(anims[..3]) == 20;
    assert TotalFrames(anims[..4]) == 26;
  }

  /**
   * The two enemy sheets: 10 frames each on a 320 by 32 canvas, the second
   * animation (bounce, fly) starting at frame 4.
   */
  lemma EnemySheets()
    ensures TotalFrames(SLIME.animations) == 10 && SheetCanvas(SLIME) == Canvas(320, 32)
    ensures StartOf(SLIME.animations, 0) == 0 && StartOf(SLIME.animations, 1) == 4
    ensures TotalFrames(FLYING.animations) == 10 && SheetCanvas(FLYING) == Canvas(320, 32)
    ensures StartOf(FLYING.animations, 0) == 0 && StartOf(FLYING.animations, 1) == 4
  {
    var slime, flying := SLIME.animations, FLYING.animations;
    assert slime[..0] == [] && flying[..0] == [];
    assert slime[..1][..0] == [] && flying[..1][..0] == [];
    assert slime[..2] == slime && flying[..2] == flying;
    assert TotalFrames(slime[..1]) == 4 && TotalFrames(flying[..1]) == 4;
  }

  /** `phases[frameIndex] || 'rise'`: the four named jump phases, and 'rise' past them. */
  function JumpPhaseAt(frameIndex: nat): (r: JumpPhase)
    ensures frameIndex == 0 ==> r == Crouch
    ensures frameIndex >= 4 ==> r == Rise
    ensures 1 <= frameIndex < 4 ==> r == [Crouch, Rise, Peak, Fall][frameIndex]
  {
    var phases := [Crouch, Rise, Peak, Fall];
    if frameIndex < |phases| then phases[frameIndex] else Rise
  }

  /** `phases[frameIndex] || 'strike'`: two windup, two strike, follow, recover, and 'strike' past them. */
  function AttackPhaseAt(frameIndex: nat): (r: AttackPhase)
    ensures frameIndex < 2 ==> r == Windup
    ensures 2 <= frameIndex < 4 || frameIndex >= 6 ==> r == Strike
    ensures frameIndex == 4 ==> r == Follow
    ensures frameIndex == 5 ==> r == Recover
  {
    var phases := [Windup, Windup, Strike, Strike, Follow, Recover];
    if frameIndex < |phases| then phases[frameIndex] else Strike
  }

  /**
   * A palette pick `colors[frameIndex % colors.length]`: always an entry of
   * the palette, cycling through it; an empty palette yields nothing.
   */
  function PaletteColor(palette: seq<string>, frameIndex: nat): (r: Option<string>)
    ensures r.None? <==> |palette| == 0
    ensures r.Some? ==> r.value in palette
    ensures r.Some? ==> r.value == palette[frameIndex % |palette|]
  {
    if |palette| == 0 then None else Some(palette[frameIndex % |palette|])
  }
}
