/** CultAI: a ranged caster that wanders like BeastAI and chases like it, but whose attack is a spell. A
    triggered attack schedules StartSpellCast, which arms the projectile with `attackDamage` and freezes
    the animator in the casting pose; while frozen the cultist neither moves nor starts another attack,
    and the freeze is released (cancelling any spell still pending) once the attack clock reaches the
    cooldown again. Death cancels every pending invocation. */
module Cultists {
  import opened Basics
  import opened Agents
  import opened Invocations
  import Players

  /** The inspector settings of CultAI; `initialHP` is the serialized `currentHP`. */
  datatype Config = Config(wanderRadius: real, wanderSpeed: real, minWanderTime: real, maxWanderTime: real,
                           chaseRange: real, attackRange: real, attackCooldown: real, attackDamage: real,
                           attackDelay: real, chaseSpeed: real, maxHP: real, initialHP: real)

  const Defaults: Config := Config(15.0, 2.5, 4.0, 8.0, 12.0, 8.0, 3.0, 25.0, 0.5, 3.5, 60.0, 60.0)

  /** The unfreeze test at the top of Update: frozen, and the attack clock (already advanced by Δt) has
      reached the cooldown. */
  predicate Thaws(frozen: bool, timer: real, dt: real, cooldown: real)
  {
    frozen && timer + dt >= cooldown
  }

  /** Whether TryAttackPlayer runs this tick: only when not frozen after the unfreeze test, and only in the
      attack branch. */
  function AttackRuns(frozen: bool, timer: real, dt: real, cooldown: real, branch: Branch): (b: bool)
    ensures b <==> (!frozen || Thaws(frozen, timer, dt, cooldown)) && branch == Attack
  {
    (!frozen || Thaws(frozen, timer, dt, cooldown)) && branch == Attack
  }

  /** While the freeze holds, no attack fires, however close the player is. */
  lemma FrozenNeverFires(timer: real, dt: real, cooldown: real, branch: Branch)
    requires !Thaws(true, timer, dt, cooldown)
    ensures !ClockTick(timer, dt, cooldown, AttackRuns(true, timer, dt, cooldown, branch)).fired
  {
  }

  /** The tick that releases the freeze can fire the next attack at once: the clock has reached the
      cooldown, so a player inside attack range is attacked in that same tick. */
  lemma ThawThenStrike(timer: real, dt: real, cooldown: real, s: Sighting, attackRange: real, chaseRange: real)
    requires Thaws(true, timer, dt, cooldown)
    requires Within(s, attackRange)
    ensures ClockTick(timer, dt, cooldown, AttackRuns(true, timer, dt, cooldown, Classify(s, attackRange, chaseRange))).fired
  {
  }

  /** Every field of a cultist that TakeDamage writes or must leave alone. */
  datatype State = State(wanderTimer: real, attackTimer: real, isDead: bool, frozen: bool, hp: real,
                         projectile: Option<real>, agentStopped: bool, agentSpeed: real,
                         destination: Option<Vec3>, pending: seq<Invocation>)

  /** This hit kills a cultist in state `s`: it is not dead yet and its HP reaches zero or below. */
  predicate Kills(s: State, damage: real)
  {
    !s.isDead && s.hp - damage <= 0.0
  }

  /** The state after one TakeDamage(damage): a dead cultist ignores the call; otherwise HP is clamped at
      zero, and a killing hit latches `isDead`; with an agent Die then stops it, cancels every pending
      invocation, unfreezes the animator and drops the projectile, without one it throws first. */
  function Struck(s: State, damage: real, hasAgent: bool): (r: State)
  {
    if s.isDead then s
    else if Kills(s, damage) && !hasAgent then
      s.(hp := HpAfterHit(s.hp, damage), isDead := true)
    else if Kills(s, damage) then
      s.(hp := HpAfterHit(s.hp, damage), isDead := true, agentStopped := true,
         pending := [], frozen := false, projectile := None)
    else s.(hp := HpAfterHit(s.hp, damage))
  }

  class CultAI {
    const config: Config
    /** GetComponent found a NavMeshAgent / an Animator; a spell emitter is assigned. */
    const hasAgent: bool
    const hasAnimator: bool
    const hasEmitter: bool
    /** The PlayerState found on the player at Start, if any. */
    const playerState: Players.PlayerState?

    var wanderTimer: real
    var attackTimer: real
    var isDead: bool
    var isAnimatorFrozen: bool
    var currentHP: real
    /** The `damage` field of the SpellProjectile the cultist holds a reference to, or None when it holds
        none (no emitter, no projectile on it, or cleared at death). */
    var spellProjectile: Option<real>
    /** What the cultist has told its agent: `isStopped`, `speed` and the last SetDestination. */
    var agentStopped: bool
    var agentSpeed: real
    var destination: Option<Vec3>
    /** Invocations scheduled with Invoke and not yet run or cancelled. */
    var pending: seq<Invocation>

    /** What one triggered attack schedules: the spell cast, unless the missing animator throws first. */
    function AttackSchedules(): seq<Invocation>
    {
      if hasAnimator then [Invocation(Callback.StartSpellCast, config.attackDelay)] else []
    }

    ghost predicate Valid()
      reads this
    {
      && (isDead ==> currentHP == 0.0 && pending == [] && !isAnimatorFrozen && spellProjectile == None)
      && (!hasAgent ==> pending == [] && !isAnimatorFrozen && spellProjectile == None)
      && (spellProjectile.Some? ==> hasEmitter)
      && (forall i :: 0 <= i < |pending| ==> pending[i] == Invocation(Callback.StartSpellCast, config.attackDelay))
    }

    /** Start: with an agent, pick up the emitter's SpellProjectile (whose damage is `projectileDamage`
        until the first cast), fill HP and zero the wander countdown; without one, return at once. */
    constructor (config: Config, hasAgent: bool, hasAnimator: bool, hasEmitter: bool, emitterHasProjectile: bool,
                 projectileDamage: real, playerState: Players.PlayerState?, agentSpeed: real)
      ensures Valid()
      ensures this.config == config && this.hasAgent == hasAgent && this.hasAnimator == hasAnimator
      ensures this.hasEmitter == hasEmitter && this.playerState == playerState && this.agentSpeed == agentSpeed
      ensures wanderTimer == 0.0 && attackTimer == 0.0 && !isDead && !isAnimatorFrozen && !agentStopped
      ensures destination == None && pending == []
      ensures currentHP == if hasAgent then config.maxHP else config.initialHP
      ensures spellProjectile == if hasAgent && hasEmitter && emitterHasProjectile then Some(projectileDamage) else None
    {
      this.config := config;
      this.hasAgent := hasAgent;
      this.hasAnimator := hasAnimator;
      this.hasEmitter := hasEmitter;
      this.playerState := playerState;
      this.agentSpeed := agentSpeed;
      wanderTimer := 0.0;
      attackTimer := 0.0;
      isDead := false;
      isAnimatorFrozen := false;
      currentHP := if hasAgent then config.maxHP else config.initialHP;
      spellProjectile := if hasAgent && hasEmitter && emitterHasProjectile then Some(projectileDamage) else None;
      agentStopped := false;
      destination := None;
      pending := [];
    }

    /** One frame. Δt, the player's distance, the agent's path state as the arrival test reads it, the
        NavMesh sample around the spawn point and the Random.Range draw are inputs. */
    method Update(dt: real, player: Sighting, nav: NavReading, sample: Option<Vec3>, draw: real)
      requires Valid()
      requires InRange(draw, config.minWanderTime, config.maxWanderTime)
      modifies this`attackTimer, this`pending, this`isAnimatorFrozen, this`agentStopped, this`agentSpeed,
               this`wanderTimer, this`destination
      ensures Valid()
      ensures !hasAgent || old(isDead) ==> unchanged(this)
      ensures hasAgent && !old(isDead) ==>
                var thawed := Thaws(old(isAnimatorFrozen), old(attackTimer), dt, config.attackCooldown);
                var branch := Classify(player, config.attackRange, config.chaseRange);
                var moves := !old(isAnimatorFrozen) || thawed;
                var clock := ClockTick(old(attackTimer), dt, config.attackCooldown,
                                       AttackRuns(old(isAnimatorFrozen), old(attackTimer), dt, config.attackCooldown, branch));
                var kept := if thawed then Cancel(old(pending), Callback.StartSpellCast) else old(pending);
                && isAnimatorFrozen == !moves
                && attackTimer == clock.timer
                && pending == kept + (if clock.fired then AttackSchedules() else [])
                && (!moves ==>
                      agentStopped == old(agentStopped) && agentSpeed == old(agentSpeed)
                      && destination == old(destination) && wanderTimer == old(wanderTimer))
                && (moves && branch == Attack ==>
                      agentStopped && agentSpeed == old(agentSpeed) && destination == old(destination)
                      && wanderTimer == old(wanderTimer))
                && (moves && branch == Chase ==>
                      !agentStopped && agentSpeed == config.chaseSpeed && destination == Some(player.position)
                      && wanderTimer == old(wanderTimer))
                && (moves && branch == Roam ==>
                      !agentStopped && agentSpeed == config.wanderSpeed
                      && wanderTimer == WanderTimerAfter(old(wanderTimer), dt, draw, ArrivedWithin(nav, nav.stoppingDistance))
                      && destination == if Expires(old(wanderTimer), dt) && sample.Some? then sample else old(destination))
    {
      if !hasAgent || isDead {
        return;
      }
      attackTimer := attackTimer + dt;
      if isAnimatorFrozen && attackTimer >= config.attackCooldown {
        pending := Cancel(pending, Callback.StartSpellCast);
        UnfreezeAnimator();
      }
      if !isAnimatorFrozen {
        if Within(player, config.attackRange) {
          TryAttackPlayer();
        } else if Within(player, config.chaseRange) {
          ChasePlayer(player.position);
        } else {
          Wander(dt, nav, sample, draw);
        }
      }
    }

    /** Move at wander speed; when the countdown runs out, go to the sampled point (if the sample
        succeeded) and redraw the countdown; on arrival, zero it so the next tick picks a new point. */
    method Wander(dt: real, nav: NavReading, sample: Option<Vec3>, draw: real)
      requires InRange(draw, config.minWanderTime, config.maxWanderTime)
      modifies this`agentStopped, this`agentSpeed, this`wanderTimer, this`destination
      ensures !agentStopped && agentSpeed == config.wanderSpeed
      ensures wanderTimer == WanderTimerAfter(old(wanderTimer), dt, draw, ArrivedWithin(nav, nav.stoppingDistance))
      ensures Expires(old(wanderTimer), dt) && sample.Some? ==> destination == sample
      ensures !(Expires(old(wanderTimer), dt) && sample.Some?) ==> destination == old(destination)
    {
      agentStopped := false;
      agentSpeed := config.wanderSpeed;
      wanderTimer := wanderTimer - dt;
      if wanderTimer <= 0.0 {
        if sample.Some? {
          destination := sample;
        }
        wanderTimer := draw;
      }
      if ArrivedWithin(nav, nav.stoppingDistance) {
        wanderTimer := 0.0;
      }
    }

    /** Stop, and start the cast when the cooldown has elapsed. */
    method TryAttackPlayer()
      requires Valid() && hasAgent && !isDead
      modifies this`agentStopped, this`attackTimer, this`pending
      ensures Valid()
      ensures agentStopped
      ensures old(attackTimer) >= config.attackCooldown ==>
                attackTimer == 0.0 && pending == old(pending) + AttackSchedules()
      ensures old(attackTimer) < config.attackCooldown ==>
                attackTimer == old(attackTimer) && pending == old(pending)
    {
      agentStopped := true;
      if attackTimer >= config.attackCooldown {
        attackTimer := 0.0;
        if hasAnimator {
          pending := pending + [Invocation(Callback.StartSpellCast, config.attackDelay)];
        }
      }
    }

    /** Arms the projectile with `attackDamage` when the player is present and alive and the emitter and
        its projectile exist; in every case ends with the animator frozen. */
    method StartSpellCast()
      modifies this`spellProjectile, this`isAnimatorFrozen
      ensures isAnimatorFrozen
      ensures playerState != null && playerState.IsAlive() && hasEmitter && old(spellProjectile).Some? ==>
                spellProjectile == Some(config.attackDamage)
      ensures !(playerState != null && playerState.IsAlive() && hasEmitter && old(spellProjectile).Some?) ==>
                spellProjectile == old(spellProjectile)
    {
      if playerState != null && playerState.IsAlive() && hasEmitter && spellProjectile.Some? {
        spellProjectile := Some(config.attackDamage);
      }
      FreezeAnimator();
    }

    /** The engine runs the oldest pending invocation; every invocation a cultist
        schedules is StartSpellCast with the same delay, so the oldest is the first to fall due. */
    method RunDueInvocation()
      requires Valid()
      modifies this`pending, this`spellProjectile, this`isAnimatorFrozen
      ensures Valid()
      ensures old(pending) == [] ==> unchanged(this)
      ensures old(pending) != [] ==>
                pending == old(pending)[1..] && isAnimatorFrozen
                && (playerState != null && playerState.IsAlive() && old(spellProjectile).Some? ==>
                      spellProjectile == Some(config.attackDamage))
                && (!(playerState != null && playerState.IsAlive() && old(spellProjectile).Some?) ==>
                      spellProjectile == old(spellProjectile))
    {
      if pending != [] {
        pending := pending[1..];
        StartSpellCast();
      }
    }

    /** Head for the player at chase speed. */
    method ChasePlayer(target: Vec3)
      modifies this`agentStopped, this`agentSpeed, this`destination
      ensures !agentStopped && agentSpeed == config.chaseSpeed && destination == Some(target)
    {
      agentStopped := false;
      agentSpeed := config.chaseSpeed;
      destination := Some(target);
    }

    /** Idempotent: freezing a frozen animator changes nothing. */
    method FreezeAnimator()
      modifies this`isAnimatorFrozen
      ensures isAnimatorFrozen
    {
      if isAnimatorFrozen {
        return;
      }
      isAnimatorFrozen := true;
    }

    method UnfreezeAnimator()
      modifies this`isAnimatorFrozen
      ensures !isAnimatorFrozen
    {
      isAnimatorFrozen := false;
    }

    /** Every field TakeDamage writes or must leave alone. */
    function Snapshot(): State
      reads this
    {
      State(wanderTimer, attackTimer, isDead, isAnimatorFrozen, currentHP, spellProjectile, agentStopped,
            agentSpeed, destination, pending)
    }

    /** The whole state after one TakeDamage(damage), field by field. */
    twostate predicate TookDamage(damage: real)
      reads this
    {
      Snapshot() == Struck(old(Snapshot()), damage, hasAgent)
    }


    /** No sign check: any amount is subtracted; reaching zero clamps and dies. `threw` is the exception
        Die raises on a cultist without a NavMeshAgent. */
    method TakeDamage(damage: real) returns (threw: bool)
      requires Valid()
      modifies this`currentHP, this`isDead, this`agentStopped, this`pending, this`isAnimatorFrozen,
               this`spellProjectile
      ensures Valid()
      ensures TookDamage(damage)
      ensures threw <==> Kills(old(Snapshot()), damage) && !hasAgent
      ensures old(isDead) ==> unchanged(this)
      ensures !old(isDead) ==> currentHP == HpAfterHit(old(currentHP), damage)
                               && (isDead <==> old(currentHP) - damage <= 0.0)
      ensures !old(isDead) && isDead ==>
                pending == [] && !isAnimatorFrozen && spellProjectile == None
                && agentStopped == (old(agentStopped) || hasAgent)
      ensures !isDead ==>
                pending == old(pending) && isAnimatorFrozen == old(isAnimatorFrozen)
                && spellProjectile == old(spellProjectile) && agentStopped == old(agentStopped)
    {
      threw := false;
      if isDead {
        return;
      }
      currentHP := currentHP - damage;
      if currentHP <= 0.0 {
        currentHP := 0.0;
        threw := Die();
      }
    }

    /** Latches `isDead`, stops the agent, cancels every pending invocation, unfreezes and drops the
        projectile reference. Without an agent, `agent.isStopped` throws right after the latch (`threw`);
        the fields the rest would reset already hold those values then. */
    method Die() returns (threw: bool)
      requires Valid()
      modifies this`isDead, this`agentStopped, this`pending, this`isAnimatorFrozen, this`spellProjectile
      ensures isDead
      ensures threw <==> !old(isDead) && !hasAgent
      ensures old(isDead) ==> unchanged(this)
      ensures !old(isDead) ==> pending == [] && !isAnimatorFrozen && spellProjectile == None
                               && agentStopped == (old(agentStopped) || hasAgent)
    {
      threw := false;
      if isDead {
        return;
      }
      isDead := true;
      if !hasAgent {
        threw := true;
        return;
      }
      agentStopped := true;
      pending := [];
      UnfreezeAnimator();
      spellProjectile := None;
    }

    /** HP above zero; a dead cultist is never alive. */
    predicate IsAlive(): (alive: bool)
      reads this
      ensures Valid() && isDead ==> !alive
    {
      currentHP > 0.0
    }
  }
}
