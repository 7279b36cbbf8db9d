/** GhostAI: a patrolling melee enemy like GoblinAI that also switches the agent between a patrol and a
    chase speed, issues waypoints only while its agent is active, and is immune to every hit at or above
    a magnitude threshold (the sword), taking damage only from small positive hits (magic). */
module Ghosts {
  import opened Basics
  import opened Agents
  import opened Invocations
  import Players

  /** The inspector settings of GhostAI; `initialHP` is the serialized `currentHP`. */
  datatype Config = Config(patrolSpeed: real, waitTimeAtPoint: real, reachDistance: real,
                           chaseRange: real, attackRange: real, attackCooldown: real,
                           attackDamage: real, attackDelay: real, chaseSpeed: real,
                           maxHP: real, initialHP: real, physicalDamageImmunityThreshold: real)

  const Defaults: Config := Config(2.0, 2.0, 0.5, 12.0, 2.0, 1.5, 10.0, 0.4, 4.5, 50.0, 50.0, 10.0)

  /** The HP after one TakeDamage call on a living ghost: hits at or above the threshold and hits of no
      positive size are ignored; the rest are subtracted and clamped at zero. */
  function Absorb(hp: real, damage: real, threshold: real): (r: real)
    ensures damage >= threshold || damage <= 0.0 ==> r == hp
    ensures 0.0 < damage < threshold ==> r == HpAfterHit(hp, damage)
    ensures hp >= 0.0 ==> 0.0 <= r <= hp
  {
    if damage >= threshold then hp
    else if damage > 0.0 then HpAfterHit(hp, damage)
    else hp
  }

  /** A sequence of hits on a ghost. A ghost at zero HP stays at zero, so the calls a dead ghost ignores
      change nothing here either. */
  function AbsorbAll(hp: real, threshold: real, hits: seq<real>): real
    decreases |hits|
  {
    if hits == [] then hp else AbsorbAll(Absorb(hp, hits[0], threshold), threshold, hits[1..])
  }

  /** Ghost HP never rises and never leaves [0, start], whatever the hits. */
  lemma {:induction false} HpStaysBetweenZeroAndStart(hp: real, threshold: real, hits: seq<real>)
    requires hp >= 0.0
    ensures 0.0 <= AbsorbAll(hp, threshold, hits) <= hp
    decreases |hits|
  {
    if hits != [] {
      HpStaysBetweenZeroAndStart(Absorb(hp, hits[0], threshold), threshold, hits[1..]);
    }
  }

  /** Hits that are all at or above the threshold leave the ghost untouched; with the default threshold
      of 10 this covers every swing of the player's sword, whose default damage is 50. */
  lemma {:induction false} HeavyHitsAreHarmless(hp: real, threshold: real, hits: seq<real>)
    requires forall i :: 0 <= i < |hits| ==> hits[i] >= threshold
    ensures AbsorbAll(hp, threshold, hits) == hp
    decreases |hits|
  {
    if hits != [] {
      HeavyHitsAreHarmless(hp, threshold, hits[1..]);
    }
  }

  /** Small hits add up: a run of positive hits each below the threshold takes exactly their total off,
      clamped at zero, so enough magic always banishes the ghost. */
  lemma {:induction false} SmallHitsAddUp(hp: real, threshold: real, hits: seq<real>)
    requires hp >= 0.0
    requires forall i :: 0 <= i < |hits| ==> 0.0 < hits[i] < threshold
    ensures AbsorbAll(hp, threshold, hits) == HpAfterHit(hp, Sum(hits))
    decreases |hits|
  {
    if hits != [] {
      var next := Absorb(hp, hits[0], threshold);
      SmallHitsAddUp(next, threshold, hits[1..]);
      SumNonNegative(hits[1..]);
    }
  }

  function Sum(xs: seq<real>): real
    decreases |xs|
  {
    if xs == [] then 0.0 else xs[0] + Sum(xs[1..])
  }

  lemma {:induction false} SumNonNegative(xs: seq<real>)
    requires forall i :: 0 <= i < |xs| ==> xs[i] >= 0.0
    ensures Sum(xs) >= 0.0
    decreases |xs|
  {
    if xs != [] {
      SumNonNegative(xs[1..]);
    }
  }

  /** Every field of a ghost that TakeDamage writes or must leave alone. */
  datatype State = State(patrol: PatrolState, attackTimer: real, isDead: bool, hp: real, agentSpeed: real,
                         pending: seq<Invocation>)

  /** This hit kills a ghost in state `s`: it is not dead yet, the hit gets through the immunity filter and
      its HP reaches zero or below. */
  predicate Kills(s: State, damage: real, threshold: real)
  {
    !s.isDead && 0.0 < damage < threshold && s.hp - damage <= 0.0
  }

  /** The state after one TakeDamage(damage): a dead ghost ignores the call; otherwise HP is what the
      immunity filter leaves, and a killing hit latches `isDead` and, when there is an agent, stops it. */
  function Struck(s: State, damage: real, threshold: real, hasAgent: bool): (r: State)
  {
    if s.isDead then s
    else
      var dies := Kills(s, damage, threshold);
      s.(hp := Absorb(s.hp, damage, threshold), isDead := dies,
         patrol := s.patrol.(stopped := s.patrol.stopped || (dies && hasAgent)))
  }

  class GhostAI {
    const config: Config
    const patrolPoints: seq<Vec3>
    /** GetComponent found a NavMeshAgent / an Animator. */
    const hasAgent: bool
    const hasAnimator: bool
    /** The PlayerState found on the player at Start, if any. */
    const playerState: Players.PlayerState?

    var currentPatrolIndex: nat
    var waitTimer: real
    var isWaiting: bool
    var attackTimer: real
    var isDead: bool
    var currentHP: real
    /** What the ghost has told its agent: `isStopped`, `speed` and the last SetDestination. */
    var agentStopped: bool
    var agentSpeed: real
    var destination: Option<Vec3>
    /** Invocations scheduled with Invoke and not yet run. */
    var pending: seq<Invocation>

    /** The patrol fields and the agent state Patrol works on. */
    function PatrolView(): PatrolState
      reads this
    {
      PatrolState(currentPatrolIndex, isWaiting, waitTimer, agentStopped, destination)
    }

    /** What one triggered attack schedules: the damage callback, unless the missing animator throws first. */
    function AttackSchedules(): seq<Invocation>
    {
      if hasAnimator then [Invocation(Callback.DealDamageToPlayer, config.attackDelay)] else []
    }

    ghost predicate Valid()
      reads this
    {
      CursorOk(PatrolView(), patrolPoints)
      && (isDead ==> currentHP == 0.0)
      && (!hasAgent ==> pending == [])
      && (forall i :: 0 <= i < |pending| ==> pending[i] == Invocation(Callback.DealDamageToPlayer, config.attackDelay))
    }

    /** Start: with an agent, set the patrol speed, fill HP and try to head for the first waypoint
        (`agentActive` is `agent.isActiveAndEnabled` at that moment); without an agent, return at once. */
    constructor (config: Config, patrolPoints: seq<Vec3>, hasAgent: bool, hasAnimator: bool,
                 playerState: Players.PlayerState?, agentActive: bool)
      ensures Valid()
      ensures this.config == config && this.patrolPoints == patrolPoints
      ensures this.hasAgent == hasAgent && this.hasAnimator == hasAnimator && this.playerState == playerState
      ensures attackTimer == 0.0 && !isDead && !isWaiting && waitTimer == 0.0 && !agentStopped && pending == []
      ensures hasAgent ==> currentHP == config.maxHP && agentSpeed == config.patrolSpeed
                           && PatrolView() == GoToNext(PatrolState(0, false, 0.0, false, None), patrolPoints, agentActive)
      ensures !hasAgent ==> currentHP == config.initialHP && currentPatrolIndex == 0 && destination == None
    {
      this.config := config;
      this.patrolPoints := patrolPoints;
      this.hasAgent := hasAgent;
      this.hasAnimator := hasAnimator;
      this.playerState := playerState;
      currentPatrolIndex := 0;
      waitTimer := 0.0;
      isWaiting := false;
      attackTimer := 0.0;
      isDead := false;
      currentHP := config.initialHP;
      agentStopped := false;
      agentSpeed := 0.0;
      destination := None;
      pending := [];
      new;
      if hasAgent {
        agentSpeed := config.patrolSpeed;
        currentHP := config.maxHP;
        GoToNextPatrolPoint(agentActive);
      }
    }

    /** One frame. Δt, the player's distance, the agent's path state and whether the agent is active and
        enabled are inputs. */
    method Update(dt: real, player: Sighting, nav: NavReading, agentActive: bool)
      requires Valid()
      modifies this`attackTimer, this`pending, this`agentStopped, this`agentSpeed, this`isWaiting,
               this`waitTimer, this`currentPatrolIndex, this`destination
      ensures Valid()
      ensures !hasAgent || old(isDead) ==> unchanged(this)
      ensures hasAgent && !old(isDead) ==>
                var branch := Classify(player, config.attackRange, config.chaseRange);
                var clock := ClockTick(old(attackTimer), dt, config.attackCooldown, branch == Attack);
                && attackTimer == clock.timer
                && pending == old(pending) + (if clock.fired then AttackSchedules() else [])
                && (branch == Attack ==>
                      PatrolView() == old(PatrolView()).(stopped := true) && agentSpeed == old(agentSpeed))
                && (branch == Chase ==>
                      PatrolView() == old(PatrolView()).(waiting := false, stopped := false,
                                                         destination := Some(player.position))
                      && agentSpeed == config.chaseSpeed)
                && (branch == Roam ==>
                      PatrolView() == PatrolTick(old(PatrolView()), patrolPoints, config.waitTimeAtPoint,
                                                 config.reachDistance, dt, nav, agentActive)
                      && agentSpeed == config.patrolSpeed)
    {
      if !hasAgent || isDead {
        return;
      }
      attackTimer := attackTimer + dt;
      if Within(player, config.attackRange) {
        TryAttackPlayer();
      } else if Within(player, config.chaseRange) {
        ChasePlayer(player.position);
      } else {
        Patrol(dt, nav, agentActive);
      }
    }

    /** Stop, and strike when the cooldown has elapsed. */
    method TryAttackPlayer()
      requires Valid() && hasAgent
      modifies this`agentStopped, this`attackTimer, this`pending
      ensures Valid()
      ensures agentStopped
      ensures old(attackTimer) >= config.attackCooldown ==>
                attackTimer == 0.0 && pending == old(pending) + AttackSchedules()
      ensures old(attackTimer) < config.attackCooldown ==>
                attackTimer == old(attackTimer) && pending == old(pending)
    {
      agentStopped := true;
      if attackTimer >= config.attackCooldown {
        attackTimer := 0.0;
        if hasAnimator {
          pending := pending + [Invocation(Callback.DealDamageToPlayer, config.attackDelay)];
        }
      }
    }

    /** The delayed damage: reaches the player only when there is a PlayerState and it is alive. */
    method DealDamageToPlayer(now: real)
      modifies playerState
      ensures playerState != null && old(playerState.IsAlive()) ==>
                playerState.TookDamage(config.attackDamage, now)
      ensures playerState != null && !old(playerState.IsAlive()) ==> unchanged(playerState)
    {
      if playerState != null && playerState.IsAlive() {
        playerState.TakeDamage(config.attackDamage, now);
      }
    }

    /** The engine runs the oldest pending invocation at time `now`; every invocation a ghost schedules
        is DealDamageToPlayer with the same delay, so the oldest is the first to fall due. */
    method RunDueInvocation(now: real)
      requires Valid()
      modifies this`pending, playerState
      ensures Valid()
      ensures pending == if old(pending) == [] then [] else old(pending)[1..]
      ensures old(pending) == [] && playerState != null ==> unchanged(playerState)
      ensures old(pending) != [] && playerState != null && old(playerState.IsAlive()) ==>
                playerState.TookDamage(config.attackDamage, now)
      ensures old(pending) != [] && playerState != null && !old(playerState.IsAlive()) ==> unchanged(playerState)
    {
      if pending != [] {
        pending := pending[1..];
        DealDamageToPlayer(now);
      }
    }

    /** Stop waiting and head for the player at chase speed. */
    method ChasePlayer(target: Vec3)
      modifies this`isWaiting, this`agentStopped, this`agentSpeed, this`destination
      ensures !isWaiting && !agentStopped && agentSpeed == config.chaseSpeed && destination == Some(target)
    {
      isWaiting := false;
      agentStopped := false;
      agentSpeed := config.chaseSpeed;
      destination := Some(target);
    }

    /** Back to patrol speed, then the wait-or-arrive step. */
    method Patrol(dt: real, nav: NavReading, agentActive: bool)
      requires Valid()
      modifies this`agentSpeed, this`isWaiting, this`waitTimer, this`agentStopped, this`currentPatrolIndex,
               this`destination
      ensures Valid()
      ensures agentSpeed == config.patrolSpeed
      ensures PatrolView() == PatrolTick(old(PatrolView()), patrolPoints, config.waitTimeAtPoint,
                                         config.reachDistance, dt, nav, agentActive)
    {
      agentSpeed := config.patrolSpeed;
      if isWaiting {
        agentStopped := true;
        waitTimer := waitTimer + dt;
        if waitTimer >= config.waitTimeAtPoint {
          isWaiting := false;
          waitTimer := 0.0;
          agentStopped := false;
          GoToNextPatrolPoint(agentActive);
        }
        return;
      }
      if ArrivedWithin(nav, config.reachDistance) {
        isWaiting := true;
      }
    }

    /** Issues the waypoint under the cursor only when the agent is active and enabled. */
    method GoToNextPatrolPoint(agentActive: bool)
      requires CursorOk(PatrolView(), patrolPoints)
      modifies this`destination, this`currentPatrolIndex
      ensures PatrolView() == GoToNext(old(PatrolView()), patrolPoints, agentActive)
    {
      if |patrolPoints| == 0 {
        return;
      }
      if agentActive {
        destination := Some(patrolPoints[currentPatrolIndex]);
        currentPatrolIndex := NextIndex(currentPatrolIndex, |patrolPoints|);
      }
    }

    /** Every field TakeDamage writes or must leave alone. */
    function Snapshot(): State
      reads this
    {
      State(PatrolView(), attackTimer, isDead, currentHP, agentSpeed, pending)
    }

    /** The whole state after one TakeDamage(damage), field by field. */
    twostate predicate TookDamage(damage: real)
      reads this
    {
      Snapshot() == Struck(old(Snapshot()), damage, config.physicalDamageImmunityThreshold, hasAgent)
    }


    /** The immunity filter, then subtract, clamp and die at zero. `threw` is the exception Die raises on
        a ghost without a NavMeshAgent. */
    method TakeDamage(damage: real) returns (threw: bool)
      requires Valid()
      modifies this`currentHP, this`isDead, this`agentStopped
      ensures Valid()
      ensures TookDamage(damage)
      ensures threw <==> Kills(old(Snapshot()), damage, config.physicalDamageImmunityThreshold) && !hasAgent
      ensures old(isDead) ==> unchanged(this)
      ensures !old(isDead) ==>
                currentHP == Absorb(old(currentHP), damage, config.physicalDamageImmunityThreshold)
                && (isDead <==> 0.0 < damage < config.physicalDamageImmunityThreshold
                                && old(currentHP) - damage <= 0.0)
                && agentStopped == (old(agentStopped) || (isDead && hasAgent))
      ensures pending == old(pending)
    {
      threw := false;
      if isDead {
        return;
      }
      if damage >= config.physicalDamageImmunityThreshold {
        return;
      }
      if damage > 0.0 {
        currentHP := currentHP - damage;
      } else {
        return;
      }
      if currentHP <= 0.0 {
        currentHP := 0.0;
        threw := Die();
      }
    }

    /** Latches `isDead` and stops the agent; a pending DealDamageToPlayer is not cancelled. Without an
        agent, `agent.isStopped` throws right after the latch (`threw`). */
    method Die() returns (threw: bool)
      modifies this`isDead, this`agentStopped
      ensures isDead
      ensures threw <==> !old(isDead) && !hasAgent
      ensures old(isDead) ==> unchanged(this)
      ensures !old(isDead) ==> agentStopped == (old(agentStopped) || hasAgent)
      ensures pending == old(pending)
    {
      threw := false;
      if isDead {
        return;
      }
      isDead := true;
      if hasAgent {
        agentStopped := true;
      } else {
        threw := true;
      }
    }

    /** HP above zero; a dead ghost is never alive. */
    predicate IsAlive(): (alive: bool)
      reads this
      ensures Valid() && isDead ==> !alive
    {
      currentHP > 0.0
    }
  }
}
