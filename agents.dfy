/** What the five hostile-NPC scripts (GoblinAI, GhostAI, BeastAI, SpiderAI, CultAI) have in common:
    sensing the player, reading the NavMeshAgent, the wander countdown, the patrol cursor, the attack
    clock and the HP clamp. Each script repeats this logic inline; here it is stated once. */
module Agents {
  import opened Basics

  /** A world position; the model passes positions around but does no vector arithmetic. */
  datatype Vec3 = Vec3(x: real, y: real, z: real)

  /** What an agent knows about the player this tick. `Absent` is an unassigned player reference, which the
      scripts turn into a distance of Mathf.Infinity. */
  datatype Sighting = Absent | Seen(distance: real, position: Vec3)

  /** `distanceToPlayer <= range`, with an absent player infinitely far away. */
  predicate Within(s: Sighting, range: real)
  {
    s.Seen? && s.distance <= range
  }

  /** The three branches of every Update: attack, chase, or the idle locomotion (patrol or wander). */
  datatype Branch = Attack | Chase | Roam

  /** The `if / else if / else` on the distance that every Update runs. */
  function Classify(s: Sighting, attackRange: real, chaseRange: real): (b: Branch)
    ensures b == Attack <==> Within(s, attackRange)
    ensures b == Chase <==> !Within(s, attackRange) && Within(s, chaseRange)
    ensures b == Roam <==> !Within(s, attackRange) && !Within(s, chaseRange)
    ensures s.Absent? ==> b == Roam
  {
    if Within(s, attackRange) then Attack
    else if Within(s, chaseRange) then Chase
    else Roam
  }

  /** How aggressive a branch is: roaming 0, chasing 1, attacking 2. */
  function Aggression(b: Branch): nat
  {
    match b
    case Roam => 0
    case Chase => 1
    case Attack => 2
  }

  /** Coming closer never makes an agent less aggressive, whatever the two ranges are. */
  lemma CloserIsNeverCalmer(near: real, far: real, p: Vec3, q: Vec3, attackRange: real, chaseRange: real)
    requires near <= far
    ensures Aggression(Classify(Seen(near, p), attackRange, chaseRange))
            >= Aggression(Classify(Seen(far, q), attackRange, chaseRange))
    ensures Aggression(Classify(Seen(near, p), attackRange, chaseRange))
            >= Aggression(Classify(Absent, attackRange, chaseRange))
  {
  }

  /** The NavMeshAgent fields the scripts read to decide that the agent has arrived. */
  datatype NavReading = NavReading(hasPath: bool, pathPending: bool, remainingDistance: real, stoppingDistance: real)

  /** `agent.hasPath && !agent.pathPending && agent.remainingDistance <= tolerance`. */
  predicate ArrivedWithin(n: NavReading, tolerance: real)
  {
    n.hasPath && !n.pathPending && n.remainingDistance <= tolerance
  }

  /** A value Random.Range(lo, hi) can return: one between the two bounds, both included. */
  predicate InRange(x: real, lo: real, hi: real)
  {
    (lo <= x <= hi) || (hi <= x <= lo)
  }

  function Max(a: real, b: real): real
  {
    if a < b then b else a
  }

  /** `currentHP -= damage; if (currentHP <= 0) currentHP = 0;` as every damageable writes it:
      the smallest non-negative value that is at least `hp - damage`. */
  function HpAfterHit(hp: real, damage: real): (r: real)
    ensures r >= 0.0 && r >= hp - damage
    ensures r == 0.0 || r == hp - damage
    ensures r == 0.0 <==> hp - damage <= 0.0
  {
    var left := hp - damage;
    if left <= 0.0 then 0.0 else left
  }

  // ---------------------------------------------------------------------------------------------
  // Wander (BeastAI, SpiderAI, CultAI)

  /** The countdown has run out this tick (`wanderTimer -= Time.deltaTime; if (wanderTimer <= 0f)`),
      so a new destination is sampled and the countdown redrawn. */
  predicate Expires(timer: real, dt: real)
  {
    timer - dt <= 0.0
  }

  /** The wander countdown after one Wander call: decremented by Δt, redrawn when it runs out, and forced
      to zero when the agent has arrived. */
  function WanderTimerAfter(timer: real, dt: real, draw: real, arrived: bool): (t: real)
    ensures arrived ==> t == 0.0
    ensures !arrived && Expires(timer, dt) ==> t == draw
    ensures !arrived && !Expires(timer, dt) ==> t == timer - dt > 0.0
  {
    var t := timer - dt;
    var t := if t <= 0.0 then draw else t;
    if arrived then 0.0 else t
  }

  /** With sensible wander times the countdown always stays within [0, the larger wander time]. */
  lemma {:induction false} WanderTimerStaysInWindow(timer: real, dt: real, draw: real, arrived: bool, minTime: real, maxTime: real)
    requires 0.0 <= minTime && 0.0 <= maxTime
    requires 0.0 <= timer <= Max(minTime, maxTime)
    requires dt >= 0.0
    requires InRange(draw, minTime, maxTime)
    ensures 0.0 <= WanderTimerAfter(timer, dt, draw, arrived) <= Max(minTime, maxTime)
  {
  }

  /** Arriving forces the countdown to zero, so the next Wander call samples a new destination. */
  lemma ArrivalResamplesNextTick(timer: real, dt: real, draw: real, nextDt: real)
    requires nextDt >= 0.0
    ensures Expires(WanderTimerAfter(timer, dt, draw, true), nextDt)
  {
  }

  /** Start leaves the countdown at zero, so the first Wander call finds it expired and samples a
      destination; unless the agent has already arrived, the countdown is then the fresh draw. */
  lemma FirstWanderSamples(dt: real, draw: real, arrived: bool)
    requires dt >= 0.0
    ensures Expires(0.0, dt)
    ensures !arrived ==> WanderTimerAfter(0.0, dt, draw, arrived) == draw
  {
  }

  // ---------------------------------------------------------------------------------------------
  // Patrol (GoblinAI, GhostAI)

  /** `(currentPatrolIndex + 1) % patrolPoints.Length`: the cyclic successor of a waypoint index. */
  function NextIndex(index: nat, len: nat): (r: nat)
    requires index < len
    ensures r < len
    ensures r == if index + 1 == len then 0 else index + 1
  {
    (index + 1) % len
  }

  /** The cursor after n calls of GoToNextPatrolPoint. */
  function Advance(index: nat, len: nat, n: nat): (r: nat)
    requires index < len
    ensures r < len
  {
    if n == 0 then index else NextIndex(Advance(index, len, n - 1), len)
  }

  /** Up to one full lap, the cursor moves forward by n and wraps around at most once. */
  lemma {:induction false} AdvanceWrapsOnce(index: nat, len: nat, n: nat)
    requires index < len && n <= len
    ensures Advance(index, len, n) == if index + n < len then index + n else index + n - len
  {
    if n > 0 {
      AdvanceWrapsOnce(index, len, n - 1);
    }
  }

  /** After as many steps as there are waypoints the cursor is back where it started. */
  lemma FullLapReturns(index: nat, len: nat)
    requires index < len
    ensures Advance(index, len, len) == index
  {
    AdvanceWrapsOnce(index, len, len);
  }

  /** Within one lap the cursor reaches every waypoint. */
  lemma VisitsEveryWaypoint(index: nat, len: nat, j: nat)
    requires index < len && j < len
    ensures exists n: nat :: n < len && Advance(index, len, n) == j
  {
    var n := if index <= j then j - index else j + len - index;
    AdvanceWrapsOnce(index, len, n);
    assert Advance(index, len, n) == j;
  }

  /** The patrol fields of GoblinAI and GhostAI together with what they have told their NavMeshAgent. */
  datatype PatrolState = PatrolState(index: nat, waiting: bool, waitTimer: real, stopped: bool, destination: Option<Vec3>)

  /** The cursor is a valid index into the route, or 0 on an empty route. */
  predicate CursorOk(p: PatrolState, route: seq<Vec3>)
  {
    if route == [] then p.index == 0 else p.index < |route|
  }

  /** GoToNextPatrolPoint: nothing on an empty route (or, for GhostAI, an inactive agent); otherwise head for
      the waypoint under the cursor and advance the cursor cyclically. */
  function GoToNext(p: PatrolState, route: seq<Vec3>, agentActive: bool): (r: PatrolState)
    requires CursorOk(p, route)
    ensures CursorOk(r, route)
    ensures route == [] || !agentActive ==> r == p
    ensures route != [] && agentActive ==>
              r == p.(destination := Some(route[p.index]), index := NextIndex(p.index, |route|))
  {
    if route == [] || !agentActive then p
    else p.(destination := Some(route[p.index]), index := NextIndex(p.index, |route|))
  }

  /** One Patrol call: while waiting, the wait timer accumulates Δt and, once it reaches `waitTime`, the wait
      ends and the next waypoint is issued; otherwise arriving within `reach` starts a wait. */
  function PatrolTick(p: PatrolState, route: seq<Vec3>, waitTime: real, reach: real, dt: real,
                      nav: NavReading, agentActive: bool): (r: PatrolState)
    requires CursorOk(p, route)
    ensures CursorOk(r, route)
    ensures p.waiting && p.waitTimer + dt < waitTime ==>
              r == p.(stopped := true, waitTimer := p.waitTimer + dt)
    ensures p.waiting && p.waitTimer + dt >= waitTime ==>
              !r.waiting && r.waitTimer == 0.0 && !r.stopped
              && r == GoToNext(p.(waiting := false, waitTimer := 0.0, stopped := false), route, agentActive)
    ensures !p.waiting ==> r == p.(waiting := ArrivedWithin(nav, reach))
  {
    if p.waiting then
      var t := p.waitTimer + dt;
      if t >= waitTime then GoToNext(p.(waiting := false, waitTimer := 0.0, stopped := false), route, agentActive)
      else p.(stopped := true, waitTimer := t)
    else if ArrivedWithin(nav, reach) then p.(waiting := true)
    else p
  }

  /** Waypoints one Patrol call issues: one when it ends a wait on a non-empty route with an active agent. */
  function Issued(p: PatrolState, route: seq<Vec3>, waitTime: real, dt: real, agentActive: bool): (n: nat)
    ensures n <= 1
  {
    if p.waiting && p.waitTimer + dt >= waitTime && route != [] && agentActive then 1 else 0
  }

  /** What the patrol branch sees on one tick. */
  datatype PatrolInput = PatrolInput(dt: real, nav: NavReading)

  /** The patrol state after a run of Patrol calls, and how many waypoints were issued along the way. */
  datatype PatrolRun = PatrolRun(state: PatrolState, issued: nat)

  function RunPatrol(p: PatrolState, route: seq<Vec3>, waitTime: real, reach: real, agentActive: bool,
                     inputs: seq<PatrolInput>): (r: PatrolRun)
    requires CursorOk(p, route)
    ensures CursorOk(r.state, route)
    decreases |inputs|
  {
    if inputs == [] then PatrolRun(p, 0)
    else
      var q := PatrolTick(p, route, waitTime, reach, inputs[0].dt, inputs[0].nav, agentActive);
      var rest := RunPatrol(q, route, waitTime, reach, agentActive, inputs[1..]);
      PatrolRun(rest.state, rest.issued + Issued(p, route, waitTime, inputs[0].dt, agentActive))
  }

  /** Advancing from the successor is advancing one more step. */
  lemma {:induction false} AdvanceFromNext(index: nat, len: nat, n: nat)
    requires index < len
    ensures Advance(NextIndex(index, len), len, n) == Advance(index, len, n + 1)
  {
    if n > 0 {
      AdvanceFromNext(index, len, n - 1);
    }
  }

  /** Only issuing a waypoint moves the cursor: after any run of Patrol calls the cursor has advanced
      cyclically once per issued waypoint, so (with VisitsEveryWaypoint) the route is followed in order. */
  lemma {:induction false} CursorFollowsIssued(p: PatrolState, route: seq<Vec3>, waitTime: real, reach: real,
                                               agentActive: bool, inputs: seq<PatrolInput>)
    requires CursorOk(p, route) && route != []
    ensures RunPatrol(p, route, waitTime, reach, agentActive, inputs).state.index
            == Advance(p.index, |route|, RunPatrol(p, route, waitTime, reach, agentActive, inputs).issued)
    decreases |inputs|
  {
    if inputs != [] {
      var q := PatrolTick(p, route, waitTime, reach, inputs[0].dt, inputs[0].nav, agentActive);
      var rest := RunPatrol(q, route, waitTime, reach, agentActive, inputs[1..]);
      CursorFollowsIssued(q, route, waitTime, reach, agentActive, inputs[1..]);
      if Issued(p, route, waitTime, inputs[0].dt, agentActive) == 1 {
        AdvanceFromNext(p.index, |route|, rest.issued);
      } else {
        assert q.index == p.index;
      }
    }
  }

  // ---------------------------------------------------------------------------------------------
  // The attack clock

  /** The attack clock after one tick and whether an attack fired in it. */
  datatype Clock = Clock(timer: real, fired: bool)

  /** `attackTimer += Time.deltaTime` at the top of Update, then, when TryAttackPlayer runs and
      `attackTimer >= attackCooldown`, `attackTimer = 0f` and the attack fires. */
  function ClockTick(timer: real, dt: real, cooldown: real, tryAttack: bool): (c: Clock)
    ensures c.fired <==> tryAttack && timer + dt >= cooldown
    ensures c.fired ==> c.timer == 0.0
    ensures !c.fired ==> c.timer == timer + dt
  {
    var t := timer + dt;
    if tryAttack && t >= cooldown then Clock(0.0, true) else Clock(t, false)
  }

  /** One tick as the attack clock sees it: its Δt and whether the attack branch ran. */
  datatype Tick = Tick(dt: real, tryAttack: bool)

  predicate NonNegative(ticks: seq<Tick>)
  {
    forall i :: 0 <= i < |ticks| ==> ticks[i].dt >= 0.0
  }

  /** Time elapsed over a run of ticks. */
  function Elapsed(ticks: seq<Tick>): real
  {
    if ticks == [] then 0.0 else ticks[0].dt + Elapsed(ticks[1..])
  }

  lemma {:induction false} ElapsedNonNegative(ticks: seq<Tick>)
    requires NonNegative(ticks)
    ensures Elapsed(ticks) >= 0.0
  {
    if ticks != [] {
      ElapsedNonNegative(ticks[1..]);
    }
  }

  /** The clock after a run of ticks, and how many attacks fired during the run. */
  datatype ClockRun = ClockRun(timer: real, attacks: nat)

  function RunClock(timer: real, cooldown: real, ticks: seq<Tick>): ClockRun
    decreases |ticks|
  {
    if ticks == [] then ClockRun(timer, 0)
    else
      var c := ClockTick(timer, ticks[0].dt, cooldown, ticks[0].tryAttack);
      var rest := RunClock(c.timer, cooldown, ticks[1..]);
      ClockRun(rest.timer, rest.attacks + if c.fired then 1 else 0)
  }

  /** No attack fires until a whole cooldown has accumulated on the clock: right after an attack the
      timer is zero, so two attacks are always at least `attackCooldown` seconds apart. */
  lemma {:induction false} NoAttackBeforeCooldown(timer: real, cooldown: real, ticks: seq<Tick>)
    requires NonNegative(ticks)
    requires timer + Elapsed(ticks) < cooldown
    ensures RunClock(timer, cooldown, ticks) == ClockRun(timer + Elapsed(ticks), 0)
    decreases |ticks|
  {
    if ticks != [] {
      ElapsedNonNegative(ticks[1..]);
      NoAttackBeforeCooldown(timer + ticks[0].dt, cooldown, ticks[1..]);
    }
  }

  /** The moments at which attacks fire during a run of ticks, as clock readings that start at `start`
      and advance by each tick's Δt. */
  function FireTimes(timer: real, cooldown: real, start: real, ticks: seq<Tick>): seq<real>
    decreases |ticks|
  {
    if ticks == [] then []
    else
      var c := ClockTick(timer, ticks[0].dt, cooldown, ticks[0].tryAttack);
      var now := start + ticks[0].dt;
      (if c.fired then [now] else []) + FireTimes(c.timer, cooldown, now, ticks[1..])
  }

  /** FireTimes lists exactly the attacks RunClock counts. */
  lemma {:induction false} FireTimesCountAttacks(timer: real, cooldown: real, start: real, ticks: seq<Tick>)
    ensures |FireTimes(timer, cooldown, start, ticks)| == RunClock(timer, cooldown, ticks).attacks
    decreases |ticks|
  {
    if ticks != [] {
      var c := ClockTick(timer, ticks[0].dt, cooldown, ticks[0].tryAttack);
      FireTimesCountAttacks(c.timer, cooldown, start + ticks[0].dt, ticks[1..]);
    }
  }

  /** Consecutive attacks are at least one cooldown apart, and the first waits for whatever the clock
      still lacked of a cooldown at the start; this holds whatever the frame times are. */
  lemma {:induction false} AttacksCooldownApart(timer: real, cooldown: real, start: real, ticks: seq<Tick>)
    ensures |FireTimes(timer, cooldown, start, ticks)| > 0 ==>
              FireTimes(timer, cooldown, start, ticks)[0] - start >= cooldown - timer
    ensures forall i :: 0 <= i < |FireTimes(timer, cooldown, start, ticks)| - 1 ==>
              FireTimes(timer, cooldown, start, ticks)[i + 1] - FireTimes(timer, cooldown, start, ticks)[i] >= cooldown
    decreases |ticks|
  {
    if ticks != [] {
      var c := ClockTick(timer, ticks[0].dt, cooldown, ticks[0].tryAttack);
      var now := start + ticks[0].dt;
      AttacksCooldownApart(c.timer, cooldown, now, ticks[1..]);
      var rest := FireTimes(c.timer, cooldown, now, ticks[1..]);
      if c.fired {
        assert FireTimes(timer, cooldown, start, ticks) == [now] + rest;
        assert forall i :: 1 <= i < |rest| + 1 ==> ([now] + rest)[i] == rest[i - 1];
      } else {
        assert FireTimes(timer, cooldown, start, ticks) == rest;
      }
    }
  }
}
