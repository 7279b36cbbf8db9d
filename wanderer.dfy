/** BeastAI and SpiderAI: one melee enemy that wanders around its spawn point on a random countdown, chases
    the player inside `chaseRange` and, inside `attackRange`, strikes on a cooldown with the damage landing
    `attackDelay` seconds later. The two scripts run the same code and differ only in their settings. */
module MeleeWanderers {
  import opened Basics
  import opened Agents
  import opened Invocations
  import Players

  /** The inspector settings of BeastAI / SpiderAI; `initialHP` is the serialized `currentHP`. */
  datatype Config = Config(wanderRadius: real, wanderSpeed: real, minWanderTime: real, maxWanderTime: real,
                           chaseRange: real, attackRange: real, attackCooldown: real, attackDamage: real,
                           attackDelay: real, chaseSpeed: real, maxHP: real, initialHP: real)

  const BeastDefaults: Config := Config(15.0, 3.5, 3.0, 7.0, 15.0, 1.8, 1.5, 35.0, 0.5, 6.5, 120.0, 120.0)
  const SpiderDefaults: Config := Config(15.0, 3.5, 3.0, 7.0, 10.0, 1.5, 2.0, 15.0, 0.5, 5.0, 40.0, 40.0)

  /** Every field of a wanderer that TakeDamage writes or must leave alone. */
  datatype State = State(wanderTimer: real, attackTimer: real, isDead: bool, hp: real, agentStopped: bool,
                         agentSpeed: real, destination: Option<Vec3>, pending: seq<Invocation>)

  /** This hit kills an enemy in state `s`: it is not dead yet and its HP reaches zero or below. */
  predicate Kills(s: State, damage: real)
  {
    !s.isDead && s.hp - damage <= 0.0
  }

  /** The state after one TakeDamage(damage): a dead enemy ignores the call; otherwise HP is clamped at
      zero and a killing hit latches `isDead` and, when there is an agent, stops it. */
  function Struck(s: State, damage: real, hasAgent: bool): (r: State)
  {
    if s.isDead then s
    else
      var dies := Kills(s, damage);
      s.(hp := HpAfterHit(s.hp, damage), isDead := dies, agentStopped := s.agentStopped || (dies && hasAgent))
  }

  class MeleeWanderer {
    const config: Config
    /** GetComponent found a NavMeshAgent / an Animator. */
    const hasAgent: bool
    const hasAnimator: bool
    /** The PlayerState found on the player at Start, if any. */
    const playerState: Players.PlayerState?

    var wanderTimer: real
    var attackTimer: real
    var isDead: bool
    var currentHP: real
    /** What the script has told its agent: `isStopped`, `speed` and the last SetDestination. */
    var agentStopped: bool
    var agentSpeed: real
    var destination: Option<Vec3>
    /** Invocations scheduled with Invoke and not yet run. */
    var pending: seq<Invocation>

    /** What one triggered attack schedules: the damage callback, unless the missing animator throws first. */
    function AttackSchedules(): seq<Invocation>
    {
      if hasAnimator then [Invocation(Callback.DealDamageToPlayer, config.attackDelay)] else []
    }

    ghost predicate Valid()
      reads this
    {
      && (isDead ==> currentHP == 0.0)
      && (!hasAgent ==> pending == [])
      && (forall i :: 0 <= i < |pending| ==> pending[i] == Invocation(Callback.DealDamageToPlayer, config.attackDelay))
    }

    /** Start: with an agent, fill HP and zero the wander countdown so that the first wander tick picks a
        destination; without one, return at once. The agent keeps its own configured `speed`. */
    constructor (config: Config, hasAgent: bool, hasAnimator: bool, playerState: Players.PlayerState?,
                 agentSpeed: real)
      ensures Valid()
      ensures this.config == config && this.hasAgent == hasAgent && this.hasAnimator == hasAnimator
      ensures this.playerState == playerState && this.agentSpeed == agentSpeed
      ensures wanderTimer == 0.0 && attackTimer == 0.0 && !isDead && !agentStopped
      ensures destination == None && pending == []
      ensures currentHP == if hasAgent then config.maxHP else config.initialHP
    {
      this.config := config;
      this.hasAgent := hasAgent;
      this.hasAnimator := hasAnimator;
      this.playerState := playerState;
      this.agentSpeed := agentSpeed;
      wanderTimer := 0.0;
      attackTimer := 0.0;
      isDead := false;
      currentHP := if hasAgent then config.maxHP else config.initialHP;
      agentStopped := false;
      destination := None;
      pending := [];
    }

    /** One frame. Δt, the player's distance, the agent's path state as the arrival test reads it, the
        NavMesh sample around the spawn point and the Random.Range draw are inputs. */
    method Update(dt: real, player: Sighting, nav: NavReading, sample: Option<Vec3>, draw: real)
      requires Valid()
      requires InRange(draw, config.minWanderTime, config.maxWanderTime)
      modifies this`attackTimer, this`pending, this`agentStopped, this`agentSpeed, this`wanderTimer,
               this`destination
      ensures Valid()
      ensures !hasAgent || old(isDead) ==> unchanged(this)
      ensures hasAgent && !old(isDead) ==>
                var branch := Classify(player, config.attackRange, config.chaseRange);
                var clock := ClockTick(old(attackTimer), dt, config.attackCooldown, branch == Attack);
                && attackTimer == clock.timer
                && pending == old(pending) + (if clock.fired then AttackSchedules() else [])
                && (branch == Attack ==>
                      agentStopped && agentSpeed == old(agentSpeed) && destination == old(destination)
                      && wanderTimer == old(wanderTimer))
                && (branch == Chase ==>
                      !agentStopped && agentSpeed == config.chaseSpeed && destination == Some(player.position)
                      && wanderTimer == old(wanderTimer))
                && (branch == Roam ==>
                      !agentStopped && agentSpeed == config.wanderSpeed
                      && wanderTimer == WanderTimerAfter(old(wanderTimer), dt, draw, ArrivedWithin(nav, nav.stoppingDistance))
                      && destination == if Expires(old(wanderTimer), dt) && sample.Some? then sample else old(destination))
    {
      if !hasAgent || isDead {
        return;
      }
      attackTimer := attackTimer + dt;
      if Within(player, config.attackRange) {
        TryAttackPlayer();
      } else if Within(player, config.chaseRange) {
        ChasePlayer(player.position);
      } else {
        Wander(dt, nav, sample, draw);
      }
    }

    /** Move at wander speed; when the countdown runs out, go to the sampled point (if the sample
        succeeded) and redraw the countdown; on arrival, zero it so the next tick picks a new point. */
    method Wander(dt: real, nav: NavReading, sample: Option<Vec3>, draw: real)
      requires InRange(draw, config.minWanderTime, config.maxWanderTime)
      modifies this`agentStopped, this`agentSpeed, this`wanderTimer, this`destination
      ensures !agentStopped && agentSpeed == config.wanderSpeed
      ensures wanderTimer == WanderTimerAfter(old(wanderTimer), dt, draw, ArrivedWithin(nav, nav.stoppingDistance))
      ensures Expires(old(wanderTimer), dt) && sample.Some? ==> destination == sample
      ensures !(Expires(old(wanderTimer), dt) && sample.Some?) ==> destination == old(destination)
    {
      agentStopped := false;
      agentSpeed := config.wanderSpeed;
      wanderTimer := wanderTimer - dt;
      if wanderTimer <= 0.0 {
        if sample.Some? {
          destination := sample;
        }
        wanderTimer := draw;
      }
      if ArrivedWithin(nav, nav.stoppingDistance) {
        wanderTimer := 0.0;
      }
    }

    /** Stop, and strike when the cooldown has elapsed. */
    method TryAttackPlayer()
      requires Valid() && hasAgent
      modifies this`agentStopped, this`attackTimer, this`pending
      ensures Valid()
      ensures agentStopped
      ensures old(attackTimer) >= config.attackCooldown ==>
                attackTimer == 0.0 && pending == old(pending) + AttackSchedules()
      ensures old(attackTimer) < config.attackCooldown ==>
                attackTimer == old(attackTimer) && pending == old(pending)
    {
      agentStopped := true;
      if attackTimer >= config.attackCooldown {
        attackTimer := 0.0;
        if hasAnimator {
          pending := pending + [Invocation(Callback.DealDamageToPlayer, config.attackDelay)];
        }
      }
    }

    /** The delayed damage: reaches the player only when there is a PlayerState and it is alive. */
    method DealDamageToPlayer(now: real)
      modifies playerState
      ensures playerState != null && old(playerState.IsAlive()) ==>
                playerState.TookDamage(config.attackDamage, now)
      ensures playerState != null && !old(playerState.IsAlive()) ==> unchanged(playerState)
    {
      if playerState != null && playerState.IsAlive() {
        playerState.TakeDamage(config.attackDamage, now);
      }
    }

    /** The engine runs the oldest pending invocation at time `now`; every invocation this script
        schedules is DealDamageToPlayer with the same delay, so the oldest is the first to fall due. */
    method RunDueInvocation(now: real)
      requires Valid()
      modifies this`pending, playerState
      ensures Valid()
      ensures pending == if old(pending) == [] then [] else old(pending)[1..]
      ensures old(pending) == [] && playerState != null ==> unchanged(playerState)
      ensures old(pending) != [] && playerState != null && old(playerState.IsAlive()) ==>
                playerState.TookDamage(config.attackDamage, now)
      ensures old(pending) != [] && playerState != null && !old(playerState.IsAlive()) ==> unchanged(playerState)
    {
      if pending != [] {
        pending := pending[1..];
        DealDamageToPlayer(now);
      }
    }

    /** Head for the player at chase speed. */
    method ChasePlayer(target: Vec3)
      modifies this`agentStopped, this`agentSpeed, this`destination
      ensures !agentStopped && agentSpeed == config.chaseSpeed && destination == Some(target)
    {
      agentStopped := false;
      agentSpeed := config.chaseSpeed;
      destination := Some(target);
    }

    /** Every field TakeDamage writes or must leave alone. */
    function Snapshot(): State
      reads this
    {
      State(wanderTimer, attackTimer, isDead, currentHP, agentStopped, agentSpeed, destination, pending)
    }

    /** The whole state after one TakeDamage(damage), field by field. */
    twostate predicate TookDamage(damage: real)
      reads this
    {
      Snapshot() == Struck(old(Snapshot()), damage, hasAgent)
    }


    /** No sign check: any amount is subtracted; reaching zero clamps and dies. `threw` is the exception
        Die raises on an enemy without a NavMeshAgent. */
    method TakeDamage(damage: real) returns (threw: bool)
      requires Valid()
      modifies this`currentHP, this`isDead, this`agentStopped
      ensures Valid()
      ensures TookDamage(damage)
      ensures threw <==> Kills(old(Snapshot()), damage) && !hasAgent
      ensures old(isDead) ==> unchanged(this)
      ensures !old(isDead) ==> currentHP == HpAfterHit(old(currentHP), damage)
                               && (isDead <==> old(currentHP) - damage <= 0.0)
                               && agentStopped == (old(agentStopped) || (isDead && hasAgent))
      ensures isDead ==> currentHP == 0.0 && !IsAlive()
      ensures pending == old(pending)
    {
      threw := false;
      if isDead {
        return;
      }
      currentHP := currentHP - damage;
      if currentHP <= 0.0 {
        currentHP := 0.0;
        threw := Die();
      }
    }

    /** Latches `isDead` and stops the agent; a pending DealDamageToPlayer is not cancelled. Without an
        agent, `agent.isStopped` throws right after the latch (`threw`). */
    method Die() returns (threw: bool)
      modifies this`isDead, this`agentStopped
      ensures isDead
      ensures threw <==> !old(isDead) && !hasAgent
      ensures old(isDead) ==> unchanged(this)
      ensures !old(isDead) ==> agentStopped == (old(agentStopped) || hasAgent)
      ensures pending == old(pending)
    {
      threw := false;
      if isDead {
        return;
      }
      isDead := true;
      if hasAgent {
        agentStopped := true;
      } else {
        threw := true;
      }
    }

    /** HP above zero; a dead enemy is never alive. */
    predicate IsAlive(): (alive: bool)
      reads this
      ensures Valid() && isDead ==> !alive
    {
      currentHP > 0.0
    }
  }
}
