# Gauntlet: enemy AI, player state and combat, modelled in Dafny

This project models the per-frame game logic of a Unity action game. The player wears a magic gauntlet
and carries a sword. Five kinds of hostile NPC hunt them:

- goblins and ghosts patrol a route of waypoints;
- beasts, spiders and cultists wander around their spawn point.

Every enemy chases the player inside a chase range. Inside an attack range it stops and attacks on a
cooldown. A melee enemy's damage lands a short delay later through `Invoke(DealDamageToPlayer)`. A
cultist's attack is a delayed `StartSpellCast`; the cast freezes the cultist until the attack clock
runs out again. The player's damage pipeline guards every hit with three checks:

- invincibility;
- a short invulnerability window after a hit;
- block scaling.

HP is clamped at zero. The gauntlet, held with the right mouse button, does two things:

- it cycles with E through the enabled abilities in the order Fire, Ice, Invincible, Light;
- it channels Fire, Ice or Light with the left button (draining magic every frame), or switches on a
  timed invincibility.

The sword (left button without the gauntlet) is gated by a cooldown. It hits every living damageable in
range, except the player, a short delay after the click.

## Structure

Each MonoBehaviour is a Dafny `class` whose fields are the script's fields. The state the script gives
to Unity is held in fields as well:

- the NavMeshAgent's `isStopped`, `speed` and last `SetDestination`;
- the invocations scheduled with `Invoke` and not yet run (`pending`).

Every method states its effect on that state. Most do this by tying the new state to a pure
specification function over the old state, and the properties are proved as lemmas about those
functions.

| file | module | models |
|---|---|---|
| `basics.dfy` | `Basics` | `Option`, `Mathf.Min` |
| `agents.dfy` | `Agents` | the logic the five NPC scripts repeat, each inline (see below) |
| `invocations.dfy` | `Invocations` | `Invoke` / `CancelInvoke` as a pending sequence |
| `player_state.dfy` | `Players` | `PlayerState` |
| `goblin.dfy` | `Goblins` | `GoblinAI` |
| `ghost.dfy` | `Ghosts` | `GhostAI` |
| `wanderer.dfy` | `MeleeWanderers` | `BeastAI` and `SpiderAI` |
| `cult.dfy` | `Cultists` | `CultAI` |
| `gauntlet.dfy` | `Gauntlets` | `GauntletAbilities` |
| `damageable.dfy` | `Damageables` | `IDamageable` (IsAlive / TakeDamage), dispatched per implementing script |
| `player_attack.dfy` | `PlayerAttacks` | `PlayerAttack` |

The NPC logic that `Agents` states once:

- the distance classification;
- the arrival test;
- the wander countdown;
- the patrol cursor and wait;
- the attack clock;
- the HP clamp.

`BeastAI` and `SpiderAI` run the same code line for line and differ only in their inspector defaults.
One class, `MeleeWanderers.MeleeWanderer`, models both. `BeastDefaults` and `SpiderDefaults` hold the two
sets of defaults.

Engine services become parameters, as follows.

| engine service | parameter |
|---|---|
| `Time.deltaTime` | `dt` |
| `Time.time` | `now` |
| The player's distance | a `Sighting`; an unassigned player is `Absent`, which the scripts treat as infinitely far |
| The agent's `hasPath` / `pathPending` / `remainingDistance` / `stoppingDistance` | a `NavReading` |
| `agent.isActiveAndEnabled` (GhostAI) | `agentActive` |
| The outcome of `NavMesh.SamplePosition` | an `Option<Vec3>` |
| `Random.Range(minWanderTime, maxWanderTime)` | `draw`, constrained by `requires InRange(draw, …)` |
| Mouse and key states | an `Input` / `Press` record |
| The colliders `Physics.OverlapSphere` returns | a hit list |

A `GetComponent` result becomes a `has…` constant or a nullable reference. A script's
`RunDueInvocation` models the engine running its oldest pending invocation. Every script schedules only
one callback with one fixed delay, so the oldest invocation is always the next one due.

Missing components are modelled as the code behaves:

- Without a NavMeshAgent, `Start` returns at once, leaving the serialized HP, and `Update` does nothing.
- Without an Animator, a triggered attack resets the timer but schedules no damage, because
  `animator.SetTrigger` throws first.
- Without an agent, `Die` latches `isDead` and then throws at `agent.isStopped`. The exception ends
  the enemy's `TakeDamage` and, when the sword dealt the hit, the rest of PlayerAttack's hit loop. Each
  `TakeDamage` and `Die` returns this as `threw`.

`IsAlive` is a predicate on each class (`currentHP > 0`). The getters (`GetCurrentHP`, `IsBlocking`, …)
are reads of the fields. IDamageable's declaration is not part of this model. Its members are the ones
the scripts implement, and `Damageables` dispatches them over the five implementing classes.

Behaviour of the code worth knowing:

- `PlayerState.TakeDamage` applies a negative or zero hit when the player is not blocking. Only the
  blocked and scaled amount is checked for being positive.
- `GoblinAI`, `BeastAI`, `SpiderAI` and `CultAI` subtract whatever `TakeDamage` is given, with no sign
  check.
- `CultAI` has no separate attack-window or spell-cooldown timers. The single `attackTimer` both gates
  the attack and releases the freeze.
- The melee enemies' `Die` leaves a pending `DealDamageToPlayer` in place, so a dying enemy's last blow
  still lands. `CultAI.Die` cancels every pending invocation with `CancelInvoke()`.

## Model

| member | source | states |
|---|---|---|
| `Agents.Classify` | Assets/Scripts/GoblinAI.cs:83-96 | attack exactly when the player is within `attackRange`; chase exactly when outside it but within `chaseRange`; roam otherwise; an absent player always means roam |
| `Agents.CloserIsNeverCalmer` | Assets/Scripts/BeastAI.cs:81-94 | a nearer (or present rather than absent) player never puts the agent in a less aggressive branch, whatever the two ranges |
| `Agents.HpAfterHit` | Assets/Scripts/GoblinAI.cs:211-217 | the HP after a hit is the smallest non-negative value at least `hp - damage`: zero exactly when the hit reaches zero, otherwise `hp - damage` |
| `Agents.WanderTimerAfter` | Assets/Scripts/BeastAI.cs:106-128 | after a wander tick the countdown is 0 on arrival; otherwise the fresh draw if it ran out; otherwise the old value minus Δt, still positive |
| `Agents.WanderTimerStaysInWindow` | Assets/Scripts/BeastAI.cs:106-128 | with non-negative Δt and wander times, a countdown in [0, max wander time] stays there after any tick |
| `Agents.ArrivalResamplesNextTick` | Assets/Scripts/BeastAI.cs:125-128 | arrival forces the countdown to zero, so the next tick samples a new destination |
| `Agents.FirstWanderSamples` | Assets/Scripts/BeastAI.cs:101-108 | the countdown that Start leaves at 0 expires on the first wander tick, which then samples and, unless arrived, holds the new draw |
| `Agents.NextIndex` | Assets/Scripts/GoblinAI.cs:174 | the cursor's successor stays inside the route and wraps from the last waypoint to 0 |
| `Agents.Advance` | Assets/Scripts/GoblinAI.cs:169-175 | after any number of GoToNextPatrolPoint calls the cursor is still inside the route |
| `Agents.AdvanceWrapsOnce` | Assets/Scripts/GoblinAI.cs:174 | within one lap the cursor moves forward by n and wraps around at most once |
| `Agents.FullLapReturns` | Assets/Scripts/GoblinAI.cs:174 | as many steps as there are waypoints return the cursor to where it started |
| `Agents.VisitsEveryWaypoint` | Assets/Scripts/GoblinAI.cs:174 | every waypoint is reached within one lap from any starting index |
| `Agents.GoToNext` | Assets/Scripts/GhostAI.cs:175-188 | an empty route (or an inactive agent) changes nothing; otherwise the agent heads for the waypoint under the cursor and the cursor advances cyclically, staying valid |
| `Agents.PatrolTick` | Assets/Scripts/GoblinAI.cs:146-167 | while waiting and short of the wait time: stopped, the wait timer grows by Δt; at the wait time: no longer waiting or stopped, timer 0, next waypoint issued; not waiting: waiting starts exactly on arrival within `reachDistance` |
| `Agents.Issued` | Assets/Scripts/GoblinAI.cs:153-159 | one Patrol call issues at most one waypoint |
| `Agents.RunPatrol` | Assets/Scripts/GoblinAI.cs:146-175 | over any run of Patrol calls the cursor stays a valid index |
| `Agents.CursorFollowsIssued` | Assets/Scripts/GoblinAI.cs:146-175 | after any run of Patrol calls on a non-empty route the cursor has advanced cyclically exactly once per issued waypoint |
| `Agents.NoAttackBeforeCooldown` | Assets/Scripts/GoblinAI.cs:118-120 | as long as the accumulated time stays below the cooldown no attack fires and the clock just accumulates |
| `Agents.FireTimesCountAttacks` | Assets/Scripts/GoblinAI.cs:81-120 | the list of attack moments over a run of frames has exactly as many entries as attacks the clock fires |
| `Agents.AttacksCooldownApart` | Assets/Scripts/GoblinAI.cs:81-120 | over any run of frames, consecutive attacks are at least `attackCooldown` apart, and the first comes no earlier than the cooldown minus the clock's starting value (the same clock drives GhostAI.cs:88-125, BeastAI.cs:78-147, SpiderAI.cs:78-148 and CultAI.cs:96-200) |
| `Invocations.CountOf` | Assets/Scripts/CultAI.cs:205 | the number of pending invocations of a callback is positive exactly when one is scheduled |
| `Invocations.Cancel` | Assets/Scripts/CultAI.cs:108 | after CancelInvoke of a callback none of it is pending; every other pending invocation is kept and nothing new appears; nothing to cancel changes nothing |
| `Invocations.CancelKeepsOthers` | Assets/Scripts/CultAI.cs:108 | cancelling one callback leaves the count of every other callback unchanged |
| `Players.AppliedDamage` | Assets/Scripts/PlayerState.cs:35-57 | a hit is applied exactly when not invincible, outside the invulnerability window, and (when blocking) the scaled damage is positive; the applied amount is the scaled damage when blocking, the full damage otherwise |
| `Players.Hit` | Assets/Scripts/PlayerState.cs:32-69 | invincibility or the window leaves the player unchanged; an applied hit stamps `lastDamageTime = now` and sets HP to `HpAfterHit` of the applied amount; HP never goes below zero; a call that applies nothing (invincible, inside the window, or a blocked hit scaled to nothing) leaves the player unchanged |
| `Players.BlockedToNothingIsIgnored` | Assets/Scripts/PlayerState.cs:48-55 | a blocked hit whose scaled damage is zero or less changes neither HP nor `lastDamageTime`, also outside the invulnerability window |
| `Players.HitOpensWindow` | Assets/Scripts/PlayerState.cs:42-62 | once a hit is applied at t, every call before t + invulnerabilityDuration is ignored |
| `Players.HpNeverNegative` | Assets/Scripts/PlayerState.cs:59-68 | no sequence of hits drives HP below zero |
| `Players.InvincibleTakesNothing` | Assets/Scripts/PlayerState.cs:35-39 | while invincible throughout, no sequence of hits changes HP or the last-hit time |
| `Players.HpNonIncreasing` | Assets/Scripts/PlayerState.cs:48-68 | with non-negative damage and block factor, HP never rises under hits |
| `Players.DeadStaysDead` | Assets/Scripts/PlayerState.cs:59-68 | a player at zero HP stays at zero or below under any sequence of non-negative hits with a non-negative block factor |
| `Players.PlayerState.constructor` | Assets/Scripts/PlayerState.cs:24-28 | both pools start full; never hit; not blocking or invincible |
| `Players.PlayerState.TakeDamage` | Assets/Scripts/PlayerState.cs:32-69 | HP and last-hit time become `Hit` of their old values under the current flags (`TookDamage`); magic and both flags are unchanged; a dead player stays not alive under a non-negative hit with a non-negative block factor |
| `Players.PlayerState.IsAlive` | Assets/Scripts/PlayerState.cs:103 | alive exactly when the HP that `Hit` works on is above zero |
| `Players.PlayerState.Heal` | Assets/Scripts/PlayerState.cs:71-75 | HP becomes min(HP + amount, maxHP): never above the cap, and exact below it |
| `Players.PlayerState.UseMagic` | Assets/Scripts/PlayerState.cs:77-84 | magic is spent only when there is at least the amount; otherwise unchanged |
| `Players.PlayerState.RestoreMagic` | Assets/Scripts/PlayerState.cs:86-90 | magic becomes min(magic + amount, maxMagic): never above the cap, and exact below it |
| `Players.PlayerState.SetBlocking` | Assets/Scripts/PlayerState.cs:106-109 | sets the blocking flag and nothing else |
| `Players.PlayerState.SetInvincible` | Assets/Scripts/PlayerState.cs:112-115 | sets the invincible flag and nothing else |
| `Goblins.GoblinAI.constructor` | Assets/Scripts/GoblinAI.cs:39-75 | with an agent: patrol speed, full HP and the first waypoint issued; without one: the serialized HP and nothing else |
| `Goblins.GoblinAI.Update` | Assets/Scripts/GoblinAI.cs:77-100 | dead or agentless: nothing changes; otherwise the attack clock follows `ClockTick`, a fired attack schedules the delayed damage, and the attack / chase / patrol branch follows `Classify` (attack stops the agent, chase clears waiting and heads for the player, patrol follows `PatrolTick`); speed is never touched |
| `Goblins.GoblinAI.TryAttackPlayer` | Assets/Scripts/GoblinAI.cs:103-127 | stops the agent; at the cooldown resets the timer and schedules exactly one DealDamageToPlayer after `attackDelay`; before it changes neither |
| `Goblins.GoblinAI.DealDamageToPlayer` | Assets/Scripts/GoblinAI.cs:130-137 | a present, alive player takes `attackDamage` through its pipeline (`PlayerState.TookDamage`: `Hit` under the player's flags before the call, magic and both flags kept); a dead player is untouched |
| `Goblins.GoblinAI.RunDueInvocation` | Assets/Scripts/GoblinAI.cs:125 | the oldest pending damage call runs and leaves the queue: an alive player then takes `attackDamage` as `TookDamage` states, a dead one or an empty queue leaves the player untouched |
| `Goblins.GoblinAI.ChasePlayer` | Assets/Scripts/GoblinAI.cs:139-144 | clears waiting, resumes the agent and heads for the player |
| `Goblins.GoblinAI.Patrol` | Assets/Scripts/GoblinAI.cs:146-167 | the patrol fields become `PatrolTick` of their old values |
| `Goblins.GoblinAI.GoToNextPatrolPoint` | Assets/Scripts/GoblinAI.cs:169-175 | the patrol fields become `GoToNext` of their old values |
| `Goblins.GoblinAI.TakeDamage` | Assets/Scripts/GoblinAI.cs:207-219 | the whole state becomes `Struck` of the old state (`TookDamage`): dead, nothing changes; otherwise HP becomes `HpAfterHit` (any sign), death exactly when it reaches zero, the agent stops on death, the pending damage call and every other field are kept; it throws exactly when the hit kills an agentless goblin |
| `Goblins.GoblinAI.Die` | Assets/Scripts/GoblinAI.cs:221-247 | latches `isDead` once and stops the agent; the pending damage call is not cancelled; throws exactly on the first call without an agent (GoblinAI.cs:229) |
| `Goblins.GoblinAI.IsAlive` | Assets/Scripts/GoblinAI.cs:250 | a dead goblin is never alive |
| `Ghosts.Absorb` | Assets/Scripts/GhostAI.cs:212-242 | hits at or above the immunity threshold, and hits of no positive size, leave HP unchanged; other hits subtract with the clamp; HP stays within [0, old HP] |
| `Ghosts.HpStaysBetweenZeroAndStart` | Assets/Scripts/GhostAI.cs:225-235 | under any sequence of hits ghost HP never rises and never goes below zero |
| `Ghosts.HeavyHitsAreHarmless` | Assets/Scripts/GhostAI.cs:218-222 | any sequence of hits at or above the threshold leaves HP exactly as it was |
| `Ghosts.SmallHitsAddUp` | Assets/Scripts/GhostAI.cs:225-241 | positive hits below the threshold take off exactly their total, clamped at zero |
| `Ghosts.GhostAI.constructor` | Assets/Scripts/GhostAI.cs:47-82 | with an agent: patrol speed, full HP and the first waypoint issued (if the agent is active); without one: the serialized HP and nothing else |
| `Ghosts.GhostAI.Update` | Assets/Scripts/GhostAI.cs:84-107 | as for the goblin, and the agent speed becomes the chase speed when chasing and the patrol speed when patrolling |
| `Ghosts.GhostAI.TryAttackPlayer` | Assets/Scripts/GhostAI.cs:111-131 | stops the agent; at the cooldown resets the timer and schedules exactly one DealDamageToPlayer; before it changes neither |
| `Ghosts.GhostAI.DealDamageToPlayer` | Assets/Scripts/GhostAI.cs:133-139 | a present, alive player takes `attackDamage` through its pipeline (`PlayerState.TookDamage`, magic and both flags kept); a dead player is untouched |
| `Ghosts.GhostAI.RunDueInvocation` | Assets/Scripts/GhostAI.cs:129 | the oldest pending damage call runs and leaves the queue: an alive player then takes `attackDamage` as `TookDamage` states, a dead one or an empty queue leaves the player untouched |
| `Ghosts.GhostAI.ChasePlayer` | Assets/Scripts/GhostAI.cs:141-147 | clears waiting, resumes the agent at chase speed and heads for the player |
| `Ghosts.GhostAI.Patrol` | Assets/Scripts/GhostAI.cs:150-173 | patrol speed, and the patrol fields become `PatrolTick` of their old values (waypoints issued only with an active agent) |
| `Ghosts.GhostAI.GoToNextPatrolPoint` | Assets/Scripts/GhostAI.cs:175-188 | the patrol fields become `GoToNext` of their old values |
| `Ghosts.GhostAI.TakeDamage` | Assets/Scripts/GhostAI.cs:212-242 | the whole state becomes `Struck` of the old state (`TookDamage`): dead, nothing changes; otherwise HP becomes `Absorb`, the ghost dies exactly when a positive sub-threshold hit reaches zero, the agent stops on death, every other field is kept; it throws exactly when the hit kills an agentless ghost |
| `Ghosts.GhostAI.Die` | Assets/Scripts/GhostAI.cs:244-266 | latches `isDead` once and stops the agent; the pending damage call is not cancelled; throws exactly on the first call without an agent (GhostAI.cs:251) |
| `Ghosts.GhostAI.IsAlive` | Assets/Scripts/GhostAI.cs:268 | a dead ghost is never alive |
| `MeleeWanderers.MeleeWanderer.constructor` | Assets/Scripts/BeastAI.cs:39-72 | countdown and attack clock at 0, full HP with an agent and the serialized HP without one (SpiderAI.cs:39-72 is the same) |
| `MeleeWanderers.MeleeWanderer.Update` | Assets/Scripts/BeastAI.cs:74-98 | dead or agentless: nothing changes; otherwise attack clock by `ClockTick`, a fired attack schedules the damage, and attack / chase / wander by `Classify`, wandering following `WanderTimerAfter` and moving only on a successful sample (SpiderAI.cs:74-97) |
| `MeleeWanderers.MeleeWanderer.Wander` | Assets/Scripts/BeastAI.cs:101-129 | wander speed; countdown by `WanderTimerAfter`; the destination changes only when the countdown ran out and the NavMesh sample succeeded (SpiderAI.cs:101-129) |
| `MeleeWanderers.MeleeWanderer.TryAttackPlayer` | Assets/Scripts/BeastAI.cs:132-154 | stops the agent; at the cooldown resets the timer and schedules exactly one DealDamageToPlayer after `attackDelay` (SpiderAI.cs:133-155) |
| `MeleeWanderers.MeleeWanderer.DealDamageToPlayer` | Assets/Scripts/BeastAI.cs:156-163 | a present, alive player takes `attackDamage` through its pipeline (`PlayerState.TookDamage`, magic and both flags kept); an absent or dead one is untouched (SpiderAI.cs:157-163) |
| `MeleeWanderers.MeleeWanderer.RunDueInvocation` | Assets/Scripts/BeastAI.cs:152 | the oldest pending damage call runs and leaves the queue: an alive player then takes `attackDamage` as `TookDamage` states, a dead one or an empty queue leaves the player untouched (SpiderAI.cs:153) |
| `MeleeWanderers.MeleeWanderer.ChasePlayer` | Assets/Scripts/BeastAI.cs:165-170 | resumes the agent at chase speed towards the player (SpiderAI.cs:165-170) |
| `MeleeWanderers.MeleeWanderer.TakeDamage` | Assets/Scripts/BeastAI.cs:193-205 | the whole state becomes `Struck` of the old state (`TookDamage`): dead, nothing changes; otherwise `HpAfterHit` with death exactly at zero, the agent stops on death, every other field is kept, and a dead wanderer has HP 0 and is not alive; it throws exactly when the hit kills an agentless wanderer (SpiderAI.cs:194-206, 232) |
| `MeleeWanderers.MeleeWanderer.Die` | Assets/Scripts/BeastAI.cs:207-229 | latches `isDead` once and stops the agent; the pending damage call is not cancelled; throws exactly on the first call without an agent (BeastAI.cs:214, SpiderAI.cs:208-230) |
| `MeleeWanderers.MeleeWanderer.IsAlive` | Assets/Scripts/BeastAI.cs:231 | a dead wanderer is never alive (SpiderAI.cs:232) |
| `Cultists.FrozenNeverFires` | Assets/Scripts/CultAI.cs:121 | while the freeze holds no attack fires, whatever the distance |
| `Cultists.ThawThenStrike` | Assets/Scripts/CultAI.cs:99-125 | the tick that releases the freeze fires the next attack at once if the player is in attack range |
| `Cultists.CultAI.constructor` | Assets/Scripts/CultAI.cs:46-90 | with an agent: full HP and the emitter's projectile picked up; without one: the serialized HP, no projectile |
| `Cultists.CultAI.Update` | Assets/Scripts/CultAI.cs:92-139 | dead or agentless: nothing changes; otherwise the clock advances, a frozen cultist whose clock reached the cooldown cancels its pending cast and unfreezes, a still-frozen one neither moves nor attacks, and an unfrozen one attacks / chases / wanders by `Classify` |
| `Cultists.CultAI.Wander` | Assets/Scripts/CultAI.cs:143-168 | wander speed; countdown by `WanderTimerAfter`; the destination changes only on an expired countdown and a successful sample |
| `Cultists.CultAI.TryAttackPlayer` | Assets/Scripts/CultAI.cs:191-207 | stops the agent; at the cooldown resets the timer and schedules exactly one StartSpellCast after `attackDelay` |
| `Cultists.CultAI.StartSpellCast` | Assets/Scripts/CultAI.cs:210-241 | always ends frozen; the projectile's damage becomes `attackDamage` exactly when the player is present and alive and the emitter and projectile exist |
| `Cultists.CultAI.RunDueInvocation` | Assets/Scripts/CultAI.cs:205 | the oldest pending cast runs as StartSpellCast and leaves the queue |
| `Cultists.CultAI.ChasePlayer` | Assets/Scripts/CultAI.cs:243-248 | resumes the agent at chase speed towards the player |
| `Cultists.CultAI.FreezeAnimator` | Assets/Scripts/CultAI.cs:276-286 | frozen afterwards; freezing twice is the same as once |
| `Cultists.CultAI.UnfreezeAnimator` | Assets/Scripts/CultAI.cs:288-296 | not frozen afterwards |
| `Cultists.CultAI.TakeDamage` | Assets/Scripts/CultAI.cs:300-312 | the whole state becomes `Struck` of the old state (`TookDamage`): dead, nothing changes; otherwise `HpAfterHit`, death exactly at zero, death leaves the agent stopped, nothing pending, unfrozen and without a projectile, and a surviving cultist keeps every other field; it throws exactly when the hit kills an agentless cultist |
| `Cultists.CultAI.Die` | Assets/Scripts/CultAI.cs:314-342 | latches `isDead` once; with an agent stops it, cancels every pending invocation, unfreezes and drops the projectile; throws exactly on the first call without an agent (CultAI.cs:321) |
| `Cultists.CultAI.IsAlive` | Assets/Scripts/CultAI.cs:344 | a dead cultist is never alive |
| `Gauntlets.Enabled` | Assets/Scripts/GauntletAbilities.cs:185-195 | an ability whose toggle is on means some ability is enabled |
| `Gauntlets.Index` | Assets/Scripts/GauntletAbilities.cs:3 | the ability order Fire, Ice, Invincible, Light as indices 0 to 3; the cast back is exact |
| `Gauntlets.FullCycle` | Assets/Scripts/GauntletAbilities.cs:240-245 | four steps bring every ability back to itself |
| `Gauntlets.StepCoversAll` | Assets/Scripts/GauntletAbilities.cs:240-245 | steps 1 to 4 after an ability reach every ability |
| `Gauntlets.Search` | Assets/Scripts/GauntletAbilities.cs:240-255 | the first enabled step in the range, with nothing enabled before it; none only when nothing in the range is enabled |
| `Gauntlets.CycleTargetEnabled` | Assets/Scripts/GauntletAbilities.cs:232-258 | CycleAbility lands on an enabled ability exactly when one exists; with none enabled it keeps the current one |
| `Gauntlets.CycleTargetIsFirst` | Assets/Scripts/GauntletAbilities.cs:232-258 | no ability strictly between the current one and the target, in cyclic order, is enabled |
| `Gauntlets.CycleKeepsLoneAbility` | Assets/Scripts/GauntletAbilities.cs:232-258 | when the current ability is the only enabled one, cycling keeps it |
| `Gauntlets.EnsureTargetEnabled` | Assets/Scripts/GauntletAbilities.cs:197-230 | afterwards the current ability is enabled whenever any is |
| `Gauntlets.DrainCast` | Assets/Scripts/GauntletAbilities.cs:117-131 | a drain subtracts `rate · Δt` only when magic is strictly more, otherwise the cast stops; a cast still running has magic above zero |
| `Gauntlets.CastingMeansMagicLeft` | Assets/Scripts/GauntletAbilities.cs:110-113 | at the end of every frame a running cast has magic above zero |
| `Gauntlets.ReleaseStopsCast` | Assets/Scripts/GauntletAbilities.cs:104-107 | releasing the gauntlet ends any cast and leaves invincibility as it was |
| `Gauntlets.LmbReleaseStopsCast` | Assets/Scripts/GauntletAbilities.cs:86-89 | releasing LMB ends any cast |
| `Gauntlets.CycleStopsCast` | Assets/Scripts/GauntletAbilities.cs:70-75 | cycling with E ends any cast and lands on the cycle target |
| `Gauntlets.CastStartConditions` | Assets/Scripts/GauntletAbilities.cs:78-84 | a cast only starts with the gauntlet active, LMB pressed, the player not invincible and an enabled channelled ability, and it then has drained one frame and left magic above zero |
| `Gauntlets.ExactMagicStartsAndStops` | Assets/Scripts/GauntletAbilities.cs:134-145 | with exactly one frame's worth of magic the cast starts and stops in the same frame without spending any |
| `Gauntlets.InvincibilityStart` | Assets/Scripts/GauntletAbilities.cs:91-94 | invincibility only switches on through LMB on the enabled Invincible ability with the gauntlet active, and then ends at `now + invincibilityDuration` |
| `Gauntlets.InvincibilityEnd` | Assets/Scripts/GauntletAbilities.cs:97-100 | invincibility only switches off with the gauntlet active and `now` past the end time |
| `Gauntlets.GauntletAbilities.constructor` | Assets/Scripts/GauntletAbilities.cs:59-63 | inactive, not casting, and the current ability is Fire moved to an enabled ability |
| `Gauntlets.GauntletAbilities.IsAbilityEnabled` | Assets/Scripts/GauntletAbilities.cs:185-195 | the inspector toggle of the ability; an enabled one means some ability is enabled |
| `Gauntlets.GauntletAbilities.EnsureCurrentAbilityIsEnabled` | Assets/Scripts/GauntletAbilities.cs:197-230 | the loop lands on `EnsureTarget` of the old ability |
| `Gauntlets.GauntletAbilities.CycleAbility` | Assets/Scripts/GauntletAbilities.cs:232-258 | the loop lands on `CycleTarget` of the old ability |
| `Gauntlets.GauntletAbilities.StartCast` | Assets/Scripts/GauntletAbilities.cs:134-162 | casting starts exactly when the ability is enabled, not Invincible, and magic is at least one frame's drain |
| `Gauntlets.GauntletAbilities.StopCast` | Assets/Scripts/GauntletAbilities.cs:165-173 | not casting afterwards |
| `Gauntlets.GauntletAbilities.HandleContinuousCast` | Assets/Scripts/GauntletAbilities.cs:117-131 | the cast and the player's magic become `DrainCast` of their old values |
| `Gauntlets.GauntletAbilities.TryActivateAbility` | Assets/Scripts/GauntletAbilities.cs:176-182 | Invincible and enabled: the player becomes invincible until `now + invincibilityDuration`; otherwise nothing changes |
| `Gauntlets.GauntletAbilities.StartInvincibility` | Assets/Scripts/GauntletAbilities.cs:287-297 | the player is invincible and the end time is `now + invincibilityDuration` |
| `Gauntlets.GauntletAbilities.EndInvincibility` | Assets/Scripts/GauntletAbilities.cs:299-308 | the player is no longer invincible |
| `Gauntlets.GauntletAbilities.ActiveFrame` | Assets/Scripts/GauntletAbilities.cs:78-101 | the active-gauntlet block: the LMB branches and the invincibility timer, as `ActiveStep` |
| `Gauntlets.GauntletAbilities.Update` | Assets/Scripts/GauntletAbilities.cs:65-114 | the gauntlet and the player's magic and invincibility become `Tick` of their old values, about which the lemmas above are proved |
| `Damageables.TakeDamage` | Assets/Scripts/PlayerAttack.cs:78 | dispatches to the target's own TakeDamage: the target's whole state becomes `AfterHit` of its old state, which is that script's own post-state (`Players.Hit`, or the enemy's `Struck`), and it throws exactly when that script throws (`Throws`) |
| `PlayerAttacks.AttacksSpaced` | Assets/Scripts/PlayerAttack.cs:30-37 | over any run of frames the attacks are at least one cooldown apart, the first at least one cooldown after the last attack |
| `PlayerAttacks.AtMostOneAttackPerFrame` | Assets/Scripts/PlayerAttack.cs:30-37 | no more attacks than frames |
| `PlayerAttacks.PlayerAttack.constructor` | Assets/Scripts/PlayerAttack.cs:17 | no attack yet (`lastAttackTime = -999`) and nothing scheduled |
| `PlayerAttacks.PlayerAttack.Update` | Assets/Scripts/PlayerAttack.cs:25-39 | an attack starts exactly on an LMB press without RMB once a cooldown has passed since the last one; it then records `now` and schedules one DealDamage; otherwise nothing changes |
| `PlayerAttacks.PlayerAttack.Attack` | Assets/Scripts/PlayerAttack.cs:41-51 | schedules exactly one DealDamage after `attackDelay` |
| `PlayerAttacks.FirstThrow` | Assets/Scripts/PlayerAttack.cs:68-80 | the first collider, from a given one on, whose struck damageable throws; none before it throws, and the end of the list when none does |
| `PlayerAttacks.PlayerAttack.DealDamage` | Assets/Scripts/PlayerAttack.cs:68-80 | up to and including the first collider whose TakeDamage throws, every living damageable other than the player takes `attackDamage` (`Took`); the loop then ends, and the rest, dead ones and the player's own are left unchanged; it throws exactly when some struck damageable throws |
| `PlayerAttacks.PlayerAttack.Strike` | Assets/Scripts/PlayerAttack.cs:70-79 | one pass of the hit loop: a living damageable other than the player takes `attackDamage`, no other collider's damageable changes, and it throws exactly when that damageable's TakeDamage does |
| `PlayerAttacks.PlayerAttack.RunDueInvocation` | Assets/Scripts/PlayerAttack.cs:50 | the oldest pending DealDamage runs, as above, on the colliders in range at that moment and leaves the queue; with nothing pending nothing changes |

## Left out

- Facing and rotation are not modelled: `FacePlayer`, `HandleRotation`, the quaternion slerps and
  `rotationOffset`. Neither is aiming the cultist's emitter. All of these are vector and quaternion
  floating-point maths.
- Presentation is not modelled. That covers animator triggers, floats, bools and `animator.speed`,
  particle `Play`/`Stop` (including the cultist's emitter stopping on unfreeze and death), materials
  (`ApplySpellVisuals`), `Debug.Log` and gizmos. The one animator effect on game state is kept: a missing
  Animator throws in TryAttackPlayer before `Invoke`.
- Engine services are inputs, as listed above: NavMesh path-finding and sampling, `Random`,
  `Physics.OverlapSphere`, `GetComponent`, and Unity's timing of invocations.
- Object destruction is not modelled: `Destroy`, disabling colliders, and `agent.enabled = false` at a
  cultist's death. The engine drops the invocations of a destroyed object; the model keeps them until
  they run.
- Vector arithmetic is not modelled. Positions are opaque values, so the wander destination is not
  shown to lie within `wanderRadius` of the spawn point. The velocity is not modelled either; setting it
  to zero when stopping is subsumed under `agentStopped`.
- `PlayerState.Die` only logs, so it is not modelled.
- Floating point is modelled as `real`, so IEEE rounding is not captured.
- The scripts outside the core are not part of this model: pickups, spikes, projectiles, particles,
  camera, controls, UI and editor tools. The cultist's projectile is reduced to the damage it carries.
- PlayerAttacks.PlayerAttack.DealDamage: the hit list is required to reach each damageable through one
  collider only. A damageable with several colliders in range would be hit several times by the engine.
  The model does not state that case.
- PlayerAttacks.PlayerAttack.DealDamage: each target is required to be in the state its own `Valid()`
  predicate describes, which every constructor and method of that class establishes and keeps. The same
  holds for `Damageables.TakeDamage`.
- PlayerAttacks.PlayerAttack.Strike: carries the same two requirements as DealDamage (one collider per
  damageable, every target `Valid()`), so the same cases are left unstated.
- PlayerAttacks.PlayerAttack.RunDueInvocation: carries the same two requirements as DealDamage, so a
  damageable reached through several colliders is not covered here either.
