/** GoblinAI: a melee enemy that walks a waypoint route, waiting at each point, chases the player inside
    `chaseRange` and, inside `attackRange`, strikes on a cooldown with the damage landing `attackDelay`
    seconds later. */
module Goblins {
  import opened Basics
  import opened Agents
  import opened Invocations
  import Players

  /** The inspector settings of GoblinAI; `initialHP` is the serialized `currentHP`, which Start overwrites
      with `maxHP` only when a NavMeshAgent is present. */
  datatype Config = Config(patrolSpeed: real, waitTimeAtPoint: real, reachDistance: real,
                           chaseRange: real, attackRange: real, attackCooldown: real,
                           attackDamage: real, attackDelay: real, maxHP: real, initialHP: real)

  const Defaults: Config := Config(2.0, 2.0, 0.5, 8.0, 2.0, 1.5, 10.0, 0.4, 50.0, 50.0)

  /** Every field of a goblin that TakeDamage writes or must leave alone. */
  datatype State = State(patrol: PatrolState, attackTimer: real, isDead: bool, hp: real, agentSpeed: real,
                         pending: seq<Invocation>)

  /** This hit kills a goblin in state `s`: it is not dead yet and its HP reaches zero or below. */
  predicate Kills(s: State, damage: real)
  {
    !s.isDead && s.hp - damage <= 0.0
  }

  /** The state after one TakeDamage(damage): a dead goblin ignores the call; otherwise HP is clamped at
      zero and a killing hit latches `isDead` and, when there is an agent, stops it. */
  function Struck(s: State, damage: real, hasAgent: bool): (r: State)
  {
    if s.isDead then s
    else
      var dies := Kills(s, damage);
      s.(hp := HpAfterHit(s.hp, damage), isDead := dies,
         patrol := s.patrol.(stopped := s.patrol.stopped || (dies && hasAgent)))
  }

  class GoblinAI {
    const config: Config
    const patrolPoints: seq<Vec3>
    /** GetComponent found a NavMeshAgent / an Animator. */
    const hasAgent: bool
    const hasAnimator: bool
    /** The PlayerState found on the player at Start, if any. */
    const playerState: Players.PlayerState?

    var currentPatrolIndex: nat
    var waitTimer: real
    var isWaiting: bool
    var attackTimer: real
    var isDead: bool
    var currentHP: real
    /** What the goblin has told its agent: `isStopped`, `speed` and the last SetDestination. */
    var agentStopped: bool
    var agentSpeed: real
    var destination: Option<Vec3>
    /** Invocations scheduled with Invoke and not yet run. */
    var pending: seq<Invocation>

    /** The patrol fields and the agent state Patrol works on. */
    function PatrolView(): PatrolState
      reads this
    {
      PatrolState(currentPatrolIndex, isWaiting, waitTimer, agentStopped, destination)
    }

    /** What one triggered attack schedules: the damage callback, unless the missing animator throws first. */
    function AttackSchedules(): seq<Invocation>
    {
      if hasAnimator then [Invocation(Callback.DealDamageToPlayer, config.attackDelay)] else []
    }

    ghost predicate Valid()
      reads this
    {
      CursorOk(PatrolView(), patrolPoints)
      && (isDead ==> currentHP == 0.0)
      && (!hasAgent ==> pending == [])
      && (forall i :: 0 <= i < |pending| ==> pending[i] == Invocation(Callback.DealDamageToPlayer, config.attackDelay))
    }

    /** Start: with an agent, set the patrol speed, fill HP and head for the first waypoint; without one,
        log and return before any of that. */
    constructor (config: Config, patrolPoints: seq<Vec3>, hasAgent: bool, hasAnimator: bool,
                 playerState: Players.PlayerState?)
      ensures Valid()
      ensures this.config == config && this.patrolPoints == patrolPoints
      ensures this.hasAgent == hasAgent && this.hasAnimator == hasAnimator && this.playerState == playerState
      ensures attackTimer == 0.0 && !isDead && !isWaiting && waitTimer == 0.0 && !agentStopped && pending == []
      ensures hasAgent ==> currentHP == config.maxHP && agentSpeed == config.patrolSpeed
                           && PatrolView() == GoToNext(PatrolState(0, false, 0.0, false, None), patrolPoints, true)
      ensures !hasAgent ==> currentHP == config.initialHP && currentPatrolIndex == 0 && destination == None
    {
      this.config := config;
      this.patrolPoints := patrolPoints;
      this.hasAgent := hasAgent;
      this.hasAnimator := hasAnimator;
      this.playerState := playerState;
      currentPatrolIndex := 0;
      waitTimer := 0.0;
      isWaiting := false;
      attackTimer := 0.0;
      isDead := false;
      currentHP := config.initialHP;
      agentStopped := false;
      agentSpeed := 0.0;
      destination := None;
      pending := [];
      new;
      if hasAgent {
        agentSpeed := config.patrolSpeed;
        currentHP := config.maxHP;
        GoToNextPatrolPoint();
      }
    }

    /** One frame. Δt, the player's distance and the agent's path state are inputs. */
    method Update(dt: real, player: Sighting, nav: NavReading)
      requires Valid()
      modifies this`attackTimer, this`pending, this`agentStopped, this`isWaiting, this`waitTimer,
               this`currentPatrolIndex, this`destination
      ensures Valid()
      ensures !hasAgent || old(isDead) ==> unchanged(this)
      ensures agentSpeed == old(agentSpeed)
      ensures hasAgent && !old(isDead) ==>
                var branch := Classify(player, config.attackRange, config.chaseRange);
                var clock := ClockTick(old(attackTimer), dt, config.attackCooldown, branch == Attack);
                && attackTimer == clock.timer
                && pending == old(pending) + (if clock.fired then AttackSchedules() else [])
                && (branch == Attack ==> PatrolView() == old(PatrolView()).(stopped := true))
                && (branch == Chase ==>
                      PatrolView() == old(PatrolView()).(waiting := false, stopped := false,
                                                         destination := Some(player.position)))
                && (branch == Roam ==>
                      PatrolView() == PatrolTick(old(PatrolView()), patrolPoints, config.waitTimeAtPoint,
                                                 config.reachDistance, dt, nav, true))
    {
      if !hasAgent || isDead {
        return;
      }
      attackTimer := attackTimer + dt;
      if Within(player, config.attackRange) {
        TryAttackPlayer();
      } else if Within(player, config.chaseRange) {
        ChasePlayer(player.position);
      } else {
        Patrol(dt, nav);
      }
    }

    /** Stop, and strike when the cooldown has elapsed. */
    method TryAttackPlayer()
      requires Valid() && hasAgent
      modifies this`agentStopped, this`attackTimer, this`pending
      ensures Valid()
      ensures agentStopped
      ensures old(attackTimer) >= config.attackCooldown ==>
                attackTimer == 0.0 && pending == old(pending) + AttackSchedules()
      ensures old(attackTimer) < config.attackCooldown ==>
                attackTimer == old(attackTimer) && pending == old(pending)
    {
      agentStopped := true;
      if attackTimer >= config.attackCooldown {
        attackTimer := 0.0;
        if hasAnimator {
          pending := pending + [Invocation(Callback.DealDamageToPlayer, config.attackDelay)];
        }
      }
    }

    /** The delayed damage: reaches the player only when there is a PlayerState and it is alive. */
    method DealDamageToPlayer(now: real)
      modifies playerState
      ensures playerState != null && old(playerState.IsAlive()) ==>
                playerState.TookDamage(config.attackDamage, now)
      ensures playerState != null && !old(playerState.IsAlive()) ==> unchanged(playerState)
    {
      if playerState != null && playerState.IsAlive() {
        playerState.TakeDamage(config.attackDamage, now);
      }
    }

    /** The engine runs the oldest pending invocation at time `now`; every invocation a goblin schedules
        is DealDamageToPlayer with the same delay, so the oldest is the first to fall due. */
    method RunDueInvocation(now: real)
      requires Valid()
      modifies this`pending, playerState
      ensures Valid()
      ensures pending == if old(pending) == [] then [] else old(pending)[1..]
      ensures old(pending) == [] && playerState != null ==> unchanged(playerState)
      ensures old(pending) != [] && playerState != null && old(playerState.IsAlive()) ==>
                playerState.TookDamage(config.attackDamage, now)
      ensures old(pending) != [] && playerState != null && !old(playerState.IsAlive()) ==> unchanged(playerState)
    {
      if pending != [] {
        pending := pending[1..];
        DealDamageToPlayer(now);
      }
    }

    /** Head for the player; the speed is left at what Start set. */
    method ChasePlayer(target: Vec3)
      modifies this`isWaiting, this`agentStopped, this`destination
      ensures !isWaiting && !agentStopped && destination == Some(target)
    {
      isWaiting := false;
      agentStopped := false;
      destination := Some(target);
    }

    method Patrol(dt: real, nav: NavReading)
      requires Valid()
      modifies this`isWaiting, this`waitTimer, this`agentStopped, this`currentPatrolIndex, this`destination
      ensures Valid()
      ensures PatrolView() == PatrolTick(old(PatrolView()), patrolPoints, config.waitTimeAtPoint,
                                         config.reachDistance, dt, nav, true)
    {
      if isWaiting {
        agentStopped := true;
        waitTimer := waitTimer + dt;
        if waitTimer >= config.waitTimeAtPoint {
          isWaiting := false;
          waitTimer := 0.0;
          agentStopped := false;
          GoToNextPatrolPoint();
        }
        return;
      }
      if ArrivedWithin(nav, config.reachDistance) {
        isWaiting := true;
      }
    }

    method GoToNextPatrolPoint()
      requires CursorOk(PatrolView(), patrolPoints)
      modifies this`destination, this`currentPatrolIndex
      ensures PatrolView() == GoToNext(old(PatrolView()), patrolPoints, true)
    {
      if |patrolPoints| == 0 {
        return;
      }
      destination := Some(patrolPoints[currentPatrolIndex]);
      currentPatrolIndex := NextIndex(currentPatrolIndex, |patrolPoints|);
    }

    /** Every field TakeDamage writes or must leave alone. */
    function Snapshot(): State
      reads this
    {
      State(PatrolView(), attackTimer, isDead, currentHP, agentSpeed, pending)
    }

    /** The whole state after one TakeDamage(damage), field by field. */
    twostate predicate TookDamage(damage: real)
      reads this
    {
      Snapshot() == Struck(old(Snapshot()), damage, hasAgent)
    }


    /** No sign check: any amount is subtracted; reaching zero clamps and dies. `threw` is the exception
        Die raises on a goblin without a NavMeshAgent. */
    method TakeDamage(damage: real) returns (threw: bool)
      requires Valid()
      modifies this`currentHP, this`isDead, this`agentStopped
      ensures Valid()
      ensures TookDamage(damage)
      ensures threw <==> Kills(old(Snapshot()), damage) && !hasAgent
      ensures old(isDead) ==> unchanged(this)
      ensures !old(isDead) ==> currentHP == HpAfterHit(old(currentHP), damage)
                               && (isDead <==> old(currentHP) - damage <= 0.0)
                               && agentStopped == (old(agentStopped) || (isDead && hasAgent))
      ensures pending == old(pending)
    {
      threw := false;
      if isDead {
        return;
      }
      currentHP := currentHP - damage;
      if currentHP <= 0.0 {
        currentHP := 0.0;
        threw := Die();
      }
    }

    /** Latches `isDead` and stops the agent; a pending DealDamageToPlayer is not cancelled. Without an
        agent, `agent.isStopped` throws right after the latch (`threw`). */
    method Die() returns (threw: bool)
      modifies this`isDead, this`agentStopped
      ensures isDead
      ensures threw <==> !old(isDead) && !hasAgent
      ensures old(isDead) ==> unchanged(this)
      ensures !old(isDead) ==> agentStopped == (old(agentStopped) || hasAgent)
      ensures pending == old(pending)
    {
      threw := false;
      if isDead {
        return;
      }
      isDead := true;
      if hasAgent {
        agentStopped := true;
      } else {
        threw := true;
      }
    }

    /** HP above zero; a dead goblin is never alive. */
    predicate IsAlive(): (alive: bool)
      reads this
      ensures Valid() && isDead ==> !alive
    {
      currentHP > 0.0
    }
  }
}
