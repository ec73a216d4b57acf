/**
 * The local player entity (`Player`): configuration defaults, health
 * bookkeeping, the attack cooldown, the choice of animation from movement,
 * the animation state machine's transition table, skills and respawn.
 */
module Players {
  import opened Wrappers

  /** The animation the entity believes it shows (`animationState`). */
  datatype Pose = Idle | Walking | Jumping | Falling | Attacking

  /** The states of the animation state machine. */
  datatype AnimState = IdleState | WalkState | JumpState | FallState | AttackState

  /** Events put on the scene's event bus. */
  datatype PlayerEvent =
    | DamageTaken(amount: nat, health: int)
    | Healed(amount: nat, health: int)
    | AttackStarted
    | SkillUsed(skillId: string)
    | JumpStarted

  /** The optional fields of `PlayerConfig` that the entity reads. */
  datatype PlayerConfig = PlayerConfig(
    sessionId: Option<string>,
    name: Option<string>,
    health: Option<int>,
    moveSpeed: Option<int>,
    jumpForce: Option<int>)

  datatype Player = Player(
    sessionId: string,
    name: string,
    health: int,
    maxHealth: int,
    moveSpeed: int,
    jumpForce: int,
    pose: Pose,
    machine: AnimState,
    isAttacking: bool,
    attackCooldown: nat,
    attackTimer: int,
    inventorySize: nat,
    equippedSkills: seq<string>,
    invulnerable: bool)

  /** The outcome of a call that may emit events. */
  datatype Acted = Acted(player: Player, events: seq<PlayerEvent>)

  /** `takeDamage`'s outcome: the player, whether it is still alive, and the events. */
  datatype Damaged = Damaged(player: Player, alive: bool, events: seq<PlayerEvent>)

  const DEFAULT_SESSION_ID: string := "local"
  const DEFAULT_NAME: string := "Player"
  const DEFAULT_HEALTH: int := 10
  const DEFAULT_MOVE_SPEED: int := 250
  const DEFAULT_JUMP_FORCE: int := 450
  const ATTACK_COOLDOWN_MS: nat := 500
  const INVENTORY_SIZE: nat := 10
  /** The attack animation: frames 20 to 25 of the player sheet, played once at 15 frames per second. */
  const ATTACK_FRAMES: nat := 6
  const ATTACK_FRAME_RATE: nat := 15
  /** Horizontal speed above which a grounded player walks. */
  const WALK_THRESHOLD: int := 10

  /** JavaScript's `a || b` on strings: the empty string falls through like a missing one. */
  function OrString(s: Option<string>, fallback: string): (r: string)
    ensures s.Some? && s.value != "" ==> r == s.value
    ensures s.None? || s.value == "" ==> r == fallback
  {
    if s.Some? && s.value != "" then s.value else fallback
  }

  /**
   * The constructor: string settings fall back with `||`, numeric ones with
   * `??` (so an explicit 0 is kept); `maxHealth` starts equal to `health`.
   */
  function NewPlayer(config: PlayerConfig): (p: Player)
    ensures p.sessionId == (if config.sessionId.Some? && config.sessionId.value != "" then config.sessionId.value else "local")
    ensures p.name == (if config.name.Some? && config.name.value != "" then config.name.value else "Player")
    ensures config.health.None? ==> p.health == 10
    ensures config.health.Some? ==> p.health == config.health.value
    ensures p.maxHealth == p.health
    ensures p.moveSpeed == config.moveSpeed.GetOr(250) && p.jumpForce == config.jumpForce.GetOr(450)
    ensures p.pose == Idle && p.machine == IdleState
    ensures !p.isAttacking && p.attackCooldown == 500 && p.attackTimer == 0
    ensures p.inventorySize == 10 && p.equippedSkills == [] && !p.invulnerable
    ensures |p.sessionId| > 0 && |p.name| > 0
  {
    var health := config.health.GetOr(DEFAULT_HEALTH);
    Player(
      OrString(config.sessionId, DEFAULT_SESSION_ID),
      OrString(config.name, DEFAULT_NAME),
      health, health,
      config.moveSpeed.GetOr(DEFAULT_MOVE_SPEED),
      config.jumpForce.GetOr(DEFAULT_JUMP_FORCE),
      Idle, IdleState, false, ATTACK_COOLDOWN_MS, 0, INVENTORY_SIZE, [], false)
  }

  // ---------------------------------------------------------------------
  // Health
  // ---------------------------------------------------------------------

  /** Health within its bounds. */
  predicate HealthValid(p: Player) {
    0 <= p.health <= p.maxHealth
  }

  /**
   * `takeDamage(d)`: health drops by `d`, floored at 0; the answer says
   * whether the player survived, and a `player:damage` event is emitted.
   */
  function TakeDamage(p: Player, amount: nat): (r: Damaged)
    ensures 0 <= p.health ==> 0 <= r.player.health <= p.health
    ensures amount <= p.health ==> r.player.health == p.health - amount
    ensures amount >= p.health ==> r.player.health == 0
    ensures r.alive <==> r.player.health > 0
    ensures r.events == [DamageTaken(amount, r.player.health)]
    ensures r.player == p.(health := r.player.health)
    ensures HealthValid(p) ==> HealthValid(r.player)
  {
    var health := if p.health - amount < 0 then 0 else p.health - amount;
    Damaged(p.(health := health), health > 0, [DamageTaken(amount, health)])
  }

  /** `heal(a)`: health rises by `a`, capped at `maxHealth`; a `player:healed` event is emitted. */
  function Heal(p: Player, amount: nat): (r: Acted)
    ensures HealthValid(p) ==> p.health <= r.player.health <= p.maxHealth
    ensures p.health + amount <= p.maxHealth ==> r.player.health == p.health + amount
    ensures p.health + amount >= p.maxHealth ==> r.player.health == p.maxHealth
    ensures r.events == [Healed(amount, r.player.health)]
    ensures r.player == p.(health := r.player.health)
    ensures HealthValid(p) ==> HealthValid(r.player)
  {
    var health := if p.health + amount > p.maxHealth then p.maxHealth else p.health + amount;
    Acted(p.(health := health), [Healed(amount, health)])
  }

  /** A damage or healing call. */
  datatype HealthOp = Hurt(amount: nat) | Mend(amount: nat)

  function ApplyHealth(p: Player, ops: seq<HealthOp>): Player
    decreases |ops|
  {
    if |ops| == 0 then p
    else
      var q := match ops[0] case Hurt(d) => TakeDamage(p, d).player case Mend(a) => Heal(p, a).player;
      ApplyHealth(q, ops[1..])
  }

  /** No sequence of damage and healing takes health out of [0, maxHealth] or changes anything else. */
  lemma {:induction false} HealthStaysInRange(p: Player, ops: seq<HealthOp>)
    requires HealthValid(p)
    ensures HealthValid(ApplyHealth(p, ops))
    ensures ApplyHealth(p, ops) == p.(health := ApplyHealth(p, ops).health)
    decreases |ops|
  {
    if |ops| > 0 {
      var q := match ops[0] case Hurt(d) => TakeDamage(p, d).player case Mend(a) => Heal(p, a).player;
      HealthStaysInRange(q, ops[1..]);
    }
  }

  /** With 100 health: 50 damage then 20 healing gives 70; healing at full stays 100; 200 damage gives 0 and death. */
  lemma HealthExamples(p: Player)
    requires p.health == 100 && p.maxHealth == 100
    ensures Heal(TakeDamage(p, 50).player, 20).player.health == 70
    ensures Heal(p, 100).player.health == 100
    ensures TakeDamage(p, 200).player.health == 0 && !TakeDamage(p, 200).alive
    ensures !TakeDamage(p, 100).alive && TakeDamage(p, 50).alive
  {
  }

  // ---------------------------------------------------------------------
  // Attack and cooldown
  // ---------------------------------------------------------------------

  /** The animation state machine's transition table. */
  predicate CanTransition(from: AnimState, to: AnimState) {
    match from
    case IdleState => to in {WalkState, JumpState, FallState, AttackState}
    case WalkState => to in {IdleState, JumpState, FallState, AttackState}
    case JumpState => to in {FallState, IdleState, WalkState}
    case FallState => to in {IdleState, WalkState, JumpState}
    case AttackState => to in {IdleState, WalkState}
  }

  /**
   * `transition(to)`: the machine moves when the table allows it and stays
   * otherwise; entering the jump state emits `player:jump`.
   */
  function Transition(from: AnimState, to: AnimState): (r: (AnimState, seq<PlayerEvent>))
    ensures CanTransition(from, to) ==> r.0 == to
    ensures !CanTransition(from, to) ==> r.0 == from && r.1 == []
    ensures r.1 == [JumpStarted] <==> CanTransition(from, to) && to == JumpState
    ensures r.1 == [] || r.1 == [JumpStarted]
    ensures r.0 != from ==> CanTransition(from, to)
  {
    if CanTransition(from, to) then (to, if to == JumpState then [JumpStarted] else []) else (from, [])
  }

  /** No state moves to itself, and an attack can only end on the ground. */
  lemma TransitionTable(s: AnimState)
    ensures !CanTransition(s, s)
    ensures CanTransition(AttackState, s) <==> s == IdleState || s == WalkState
    ensures CanTransition(IdleState, s) <==> s != IdleState
    ensures CanTransition(WalkState, s) <==> s != WalkState
    ensures CanTransition(s, AttackState) <==> s == IdleState || s == WalkState
  {
  }

  /**
   * `attack()`: ignored while an attack is in progress; otherwise starts one,
   * restarting the timer, moving the machine to `attack` when allowed, and
   * emitting `player:attack`.
   */
  function Attack(p: Player): (r: Acted)
    ensures p.isAttacking ==> r == Acted(p, [])
    ensures !p.isAttacking ==> r.player.isAttacking && r.player.attackTimer == 0
    ensures !p.isAttacking ==> r.events == [AttackStarted]
    ensures !p.isAttacking ==> r.player.machine == (if CanTransition(p.machine, AttackState) then AttackState else p.machine)
    ensures r.player.health == p.health && r.player.pose == p.pose && r.player.equippedSkills == p.equippedSkills
  {
    if p.isAttacking then Acted(p, [])
    else
      var (m, _) := Transition(p.machine, AttackState);
      Acted(p.(isAttacking := true, attackTimer := 0, machine := m), [AttackStarted])
  }

  /** The attack-timer part of `update(delta)`: an attack ends once its timer reaches the cooldown. */
  function TickAttack(p: Player, delta: int): (r: Player)
    ensures !p.isAttacking ==> r == p
    ensures p.isAttacking ==> r.attackTimer == p.attackTimer + delta
    ensures p.isAttacking ==> (r.isAttacking <==> p.attackTimer + delta < p.attackCooldown)
    ensures r == p.(isAttacking := r.isAttacking, attackTimer := r.attackTimer)
  {
    if !p.isAttacking then p
    else
      var t := p.attackTimer + delta;
      p.(attackTimer := t, isAttacking := t < p.attackCooldown)
  }

  /** The timer after a run of frames. */
  function TickAll(p: Player, deltas: seq<nat>): Player
    decreases |deltas|
  {
    if |deltas| == 0 then p else TickAll(TickAttack(p, deltas[0]), deltas[1..])
  }

  function Sum(deltas: seq<nat>): nat {
    if |deltas| == 0 then 0 else deltas[0] + Sum(deltas[1..])
  }

  /**
   * The timer alone: after an attack starts, and with no animation-completion
   * callback in between, the player keeps attacking exactly as long as the
   * frame times so far add up to less than the cooldown.
   */
  lemma {:induction false} CooldownEndsAttack(p: Player, deltas: seq<nat>)
    requires p.isAttacking && p.attackTimer < p.attackCooldown
    ensures TickAll(p, deltas).isAttacking <==> p.attackTimer + Sum(deltas) < p.attackCooldown
    ensures TickAll(p, deltas).isAttacking ==> TickAll(p, deltas).attackTimer == p.attackTimer + Sum(deltas)
    decreases |deltas|
  {
    if |deltas| > 0 {
      var q := TickAttack(p, deltas[0]);
      if q.isAttacking {
        CooldownEndsAttack(q, deltas[1..]);
      } else {
        NotAttackingStays(q, deltas[1..]);
      }
    }
  }

  lemma {:induction false} NotAttackingStays(p: Player, deltas: seq<nat>)
    requires !p.isAttacking
    ensures TickAll(p, deltas) == p
    decreases |deltas|
  {
    if |deltas| > 0 {
      NotAttackingStays(TickAttack(p, deltas[0]), deltas[1..]);
    }
  }

  /** How long the attack animation runs, in whole milliseconds. */
  function AttackAnimationMs(): (ms: nat)
    ensures ms * ATTACK_FRAME_RATE == ATTACK_FRAMES * 1000
  {
    ATTACK_FRAMES * 1000 / ATTACK_FRAME_RATE
  }

  /**
   * Whether `attack()` registers the `playOnce` completion callback: only when
   * it starts an attack, the machine accepted `attack`, and an animation
   * manager is bound.
   */
  predicate ArmsCompletion(p: Player, hasAnimationManager: bool) {
    !p.isAttacking && CanTransition(p.machine, AttackState) && hasAnimationManager
  }

  /**
   * The completion callback of the attack animation: the attack is over and
   * the machine is asked for `idle`. Nothing else changes.
   */
  function AttackAnimationDone(p: Player): (r: Player)
    ensures !r.isAttacking
    ensures p.machine == AttackState ==> r.machine == IdleState
    ensures r.machine == IdleState <==> p.machine == IdleState || CanTransition(p.machine, IdleState)
    ensures r.machine != IdleState ==> r.machine == p.machine
    ensures r == p.(isAttacking := false, machine := r.machine)
  {
    p.(isAttacking := false, machine := Transition(p.machine, IdleState).0)
  }

  /** What reaches the attack state between frames: a frame's elapsed time, or the animation's completion. */
  datatype AttackEvent = Frame(delta: nat) | AnimationComplete

  function RunAttack(p: Player, events: seq<AttackEvent>): Player
    decreases |events|
  {
    if |events| == 0 then p
    else
      var q := match events[0]
        case Frame(delta) => TickAttack(p, delta)
        case AnimationComplete => AttackAnimationDone(p);
      RunAttack(q, events[1..])
  }

  /** The time the frames of an event run add up to. */
  function FrameTime(events: seq<AttackEvent>): nat {
    if |events| == 0 then 0
    else (match events[0] case Frame(d) => d case AnimationComplete => 0) + FrameTime(events[1..])
  }

  /**
   * With both ways out, an attack ends no later than its cooldown: once the
   * frames add up to the cooldown it is over, and it is still on only while
   * no completion callback has fired and the frames stay below the cooldown.
   */
  lemma {:induction false} AttackEndsByCooldown(p: Player, events: seq<AttackEvent>)
    requires p.isAttacking && p.attackTimer < p.attackCooldown
    ensures p.attackTimer + FrameTime(events) >= p.attackCooldown ==> !RunAttack(p, events).isAttacking
    ensures RunAttack(p, events).isAttacking ==>
      AnimationComplete !in events && p.attackTimer + FrameTime(events) < p.attackCooldown
    decreases |events|
  {
    if |events| > 0 {
      var q := match events[0]
        case Frame(delta) => TickAttack(p, delta)
        case AnimationComplete => AttackAnimationDone(p);
      assert events == [events[0]] + events[1..];
      if q.isAttacking {
        AttackEndsByCooldown(q, events[1..]);
      } else {
        StaysOver(q, events[1..]);
      }
    }
  }

  /** An attack that is over stays over, whatever arrives next. */
  lemma {:induction false} StaysOver(p: Player, events: seq<AttackEvent>)
    requires !p.isAttacking
    ensures !RunAttack(p, events).isAttacking
    decreases |events|
  {
    if |events| > 0 {
      var q := match events[0]
        case Frame(delta) => TickAttack(p, delta)
        case AnimationComplete => AttackAnimationDone(p);
      StaysOver(q, events[1..]);
    }
  }

  /**
   * With the default cooldown the animation, not the timer, ends an attack
   * started from idle: 400 ms of frames leave it running, and the completion
   * callback then ends it and returns the machine to idle.
   */
  lemma AnimationEndsAttackFirst(p: Player)
    requires !p.isAttacking && p.attackCooldown == ATTACK_COOLDOWN_MS && p.machine == IdleState
    ensures ArmsCompletion(p, true)
    ensures AttackAnimationMs() == 400
    ensures RunAttack(Attack(p).player, [Frame(AttackAnimationMs())]).isAttacking
    ensures var done := RunAttack(Attack(p).player, [Frame(AttackAnimationMs()), AnimationComplete]);
      !done.isAttacking && done.machine == IdleState
  {
    var a := Attack(p).player;
    assert RunAttack(a, [Frame(400)]) == RunAttack(TickAttack(a, 400), []);
    assert [Frame(400), AnimationComplete][1..] == [AnimationComplete];
  }

  // ---------------------------------------------------------------------
  // Animation choice
  // ---------------------------------------------------------------------

  /** The pose movement calls for: airborne by vertical direction, grounded by horizontal speed. */
  function TargetPose(onGround: bool, vx: int, vy: int): (r: Pose)
    ensures r != Attacking
    ensures !onGround <==> r in {Jumping, Falling}
    ensures r == Walking <==> onGround && (vx > 10 || vx < -10)
    ensures r == Jumping <==> !onGround && vy < 0
  {
    if !onGround then (if vy < 0 then Jumping else Falling)
    else if vx > WALK_THRESHOLD || -vx > WALK_THRESHOLD then Walking
    else Idle
  }

  /** The machine state a pose is played with. */
  function MachineStateOf(pose: Pose): AnimState {
    match pose
    case Idle => IdleState
    case Walking => WalkState
    case Jumping => JumpState
    case Falling => FallState
    case Attacking => AttackState
  }

  /**
   * `updateAnimation`: does nothing during an attack; otherwise adopts the
   * pose movement calls for and, when it changed, asks the machine for the
   * matching state.
   */
  function UpdateAnimation(p: Player, onGround: bool, vx: int, vy: int): (r: Acted)
    ensures p.isAttacking ==> r == Acted(p, [])
    ensures !p.isAttacking ==> r.player.pose == TargetPose(onGround, vx, vy)
    ensures !p.isAttacking && p.pose == TargetPose(onGround, vx, vy) ==> r == Acted(p, [])
    ensures !p.isAttacking && p.pose != TargetPose(onGround, vx, vy) ==>
      r.player.machine == Transition(p.machine, MachineStateOf(TargetPose(onGround, vx, vy))).0
    ensures r.player == p.(pose := r.player.pose, machine := r.player.machine)
    ensures r.events == [] || r.events == [JumpStarted]
  {
    if p.isAttacking then Acted(p, [])
    else
      var target := TargetPose(onGround, vx, vy);
      if target == p.pose then Acted(p, [])
      else
        var (m, events) := Transition(p.machine, MachineStateOf(target));
        Acted(p.(pose := target, machine := m), events)
  }

  /** One frame of `update(delta)` without input: the attack timer, then the animation choice. */
  function Update(p: Player, delta: int, onGround: bool, vx: int, vy: int): (r: Acted)
    ensures r.player.health == p.health && r.player.equippedSkills == p.equippedSkills
    ensures p.isAttacking && p.attackTimer + delta >= p.attackCooldown ==> !r.player.isAttacking
    ensures !r.player.isAttacking ==> r.player.pose == TargetPose(onGround, vx, vy)
  {
    UpdateAnimation(TickAttack(p, delta), onGround, vx, vy)
  }

  /** A grounded player at rest after an attack has cooled down returns to idle. */
  lemma AttackThenRest(p: Player, delta: nat)
    requires !p.isAttacking && p.attackCooldown == 500 && delta >= 500
    requires p.machine == IdleState && p.pose == Idle
    ensures var a := Attack(p).player;
      var u := Update(a, delta, true, 0, 0).player;
      && a.isAttacking && a.machine == AttackState
      && !u.isAttacking && u.pose == Idle
  {
  }

  // ---------------------------------------------------------------------
  // Skills and respawn
  // ---------------------------------------------------------------------

  predicate NoDuplicates(s: seq<string>) {
    forall i, j :: 0 <= i < j < |s| ==> s[i] != s[j]
  }

  /** `equipSkill(id)`: appends the id unless already equipped. */
  function EquipSkill(p: Player, skillId: string): (r: Player)
    ensures skillId in r.equippedSkills
    ensures skillId in p.equippedSkills ==> r == p
    ensures skillId !in p.equippedSkills ==> r.equippedSkills == p.equippedSkills + [skillId]
    ensures forall s :: s in r.equippedSkills <==> s in p.equippedSkills || s == skillId
    ensures NoDuplicates(p.equippedSkills) ==> NoDuplicates(r.equippedSkills)
    ensures r == p.(equippedSkills := r.equippedSkills)
  {
    if skillId in p.equippedSkills then p
    else p.(equippedSkills := p.equippedSkills + [skillId])
  }

  /** The list without its entry at `i`. */
  function RemoveAt(s: seq<string>, i: nat): (r: seq<string>)
    requires i < |s|
    ensures |r| == |s| - 1
    ensures forall j :: 0 <= j < i ==> r[j] == s[j]
    ensures forall j :: i <= j < |r| ==> r[j] == s[j + 1]
  {
    s[..i] + s[i + 1..]
  }

  /** The first position of `x` in `s`, or None (`indexOf` answering -1). */
  function FirstIndex(s: seq<string>, x: string): (r: Option<nat>)
    ensures r.None? <==> x !in s
    ensures r.Some? ==> r.value < |s| && s[r.value] == x && forall j :: 0 <= j < r.value ==> s[j] != x
  {
    if |s| == 0 then None
    else if s[0] == x then Some(0)
    else match FirstIndex(s[1..], x)
      case None => None
      case Some(i) => Some(i + 1)
  }

  /** `unequipSkill(id)`: removes the first occurrence of the id; an id not equipped changes nothing. */
  function UnequipSkill(p: Player, skillId: string): (r: Player)
    ensures skillId !in p.equippedSkills ==> r == p
    ensures skillId in p.equippedSkills ==> |r.equippedSkills| == |p.equippedSkills| - 1
    ensures FirstIndex(p.equippedSkills, skillId).Some? ==>
      var i := FirstIndex(p.equippedSkills, skillId).value;
      r.equippedSkills == p.equippedSkills[..i] + p.equippedSkills[i + 1..]
    ensures forall s :: s in r.equippedSkills && s != skillId ==> s in p.equippedSkills
    ensures forall s :: s in p.equippedSkills && s != skillId ==> s in r.equippedSkills
    ensures NoDuplicates(p.equippedSkills) ==> skillId !in r.equippedSkills && NoDuplicates(r.equippedSkills)
    ensures r == p.(equippedSkills := r.equippedSkills)
  {
    match FirstIndex(p.equippedSkills, skillId)
    case None => p
    case Some(i) =>
      RemoveFirstMembers(p.equippedSkills, skillId, i);
      p.(equippedSkills := RemoveAt(p.equippedSkills, i))
  }

  /**
   * Removing the first occurrence of `x` keeps every other element and drops
   * `x` altogether from a list without duplicates.
   */
  lemma RemoveFirstMembers(s: seq<string>, x: string, i: nat)
    requires i < |s| && s[i] == x
    ensures forall y :: y in RemoveAt(s, i) && y != x ==> y in s
    ensures forall y :: y in s && y != x ==> y in RemoveAt(s, i)
    ensures NoDuplicates(s) ==> x !in RemoveAt(s, i) && NoDuplicates(RemoveAt(s, i))
  {
    var r := RemoveAt(s, i);
    forall y | y in s && y != x
      ensures y in r
    {
      var k :| 0 <= k < |s| && s[k] == y;
      if k < i { assert r[k] == y; } else { assert r[k - 1] == y; }
    }
    forall y | y in r
      ensures y in s
    {
      var k :| 0 <= k < |r| && r[k] == y;
      if k < i { assert s[k] == y; } else { assert s[k + 1] == y; }
    }
    if NoDuplicates(s) {
      forall a, b | 0 <= a < b < |r|
        ensures r[a] != r[b]
      {
        var a', b' := if a < i then a else a + 1, if b < i then b else b + 1;
        assert r[a] == s[a'] && r[b] == s[b'];
      }
      forall k | 0 <= k < |r|
        ensures r[k] != x
      {
        if k < i { assert r[k] == s[k]; } else { assert r[k] == s[k + 1]; }
      }
    }
  }

  /** `useSkill(id)`: emits `player:skill-used` for an equipped skill and nothing otherwise. */
  function UseSkill(p: Player, skillId: string): (r: Acted)
    ensures r.player == p
    ensures r.events == (if skillId in p.equippedSkills then [SkillUsed(skillId)] else [])
    ensures |r.events| == 1 <==> skillId in p.equippedSkills
  {
    if skillId in p.equippedSkills then Acted(p, [SkillUsed(skillId)]) else Acted(p, [])
  }

  /**
   * A skill can be used once it is equipped and not after it is unequipped
   * from a duplicate-free list; using it never changes the player.
   */
  lemma UseFollowsEquipment(p: Player, skillId: string)
    ensures UseSkill(EquipSkill(p, skillId), skillId).events == [SkillUsed(skillId)]
    ensures NoDuplicates(p.equippedSkills) ==> UseSkill(UnequipSkill(p, skillId), skillId).events == []
    ensures UseSkill(EquipSkill(p, skillId), skillId).player == EquipSkill(p, skillId)
  {
  }

  /** Equipping then unequipping a new skill restores the list. */
  lemma EquipThenUnequip(p: Player, skillId: string)
    requires skillId !in p.equippedSkills
    ensures UnequipSkill(EquipSkill(p, skillId), skillId) == p
  {
    var s := p.equippedSkills;
    var e := s + [skillId];
    assert FirstIndex(e, skillId) == Some(|s|);
    assert e[..|s|] + e[|s| + 1..] == s;
  }

  /** `respawn()`: full health, not invulnerable, not attacking, idle. */
  function Respawn(p: Player): (r: Player)
    ensures r.health == r.maxHealth == p.maxHealth
    ensures !r.invulnerable && !r.isAttacking
    ensures r.pose == Idle && r.machine == IdleState
    ensures r.equippedSkills == p.equippedSkills && r.attackTimer == p.attackTimer
    ensures p.maxHealth >= 0 ==> HealthValid(r)
  {
    p.(health := p.maxHealth, invulnerable := false, isAttacking := false, pose := Idle, machine := IdleState)
  }

  /** A player killed and respawned is back at full health and can attack again. */
  lemma DeathAndRespawn(p: Player, amount: nat)
    requires HealthValid(p) && amount >= p.health
    ensures !TakeDamage(p, amount).alive
    ensures var q := Respawn(TakeDamage(p, amount).player);
      q.health == p.maxHealth && Attack(q).player.isAttacking
  {
  }
}
