/** The damageable interface (IsAlive, TakeDamage) as the player's sword sees it: one case per script
    that implements it. A collider resolves to at most one of these. */
module Damageables {
  import opened Basics
  import opened Agents
  import Players
  import Goblins
  import Ghosts
  import MeleeWanderers
  import Cultists

  datatype Target =
    | Player(p: Players.PlayerState)
    | Goblin(g: Goblins.GoblinAI)
    | Ghost(h: Ghosts.GhostAI)
    | Wanderer(w: MeleeWanderers.MeleeWanderer)
    | Cultist(c: Cultists.CultAI)

  /** The script object behind a target. */
  function Obj(t: Target): object
  {
    match t
    case Player(p) => p
    case Goblin(g) => g
    case Ghost(h) => h
    case Wanderer(w) => w
    case Cultist(c) => c
  }

  /** `IsAlive()`: HP above zero, for every implementation. */
  predicate Alive(t: Target)
    reads Obj(t)
  {
    match t
    case Player(p) => p.IsAlive()
    case Goblin(g) => g.IsAlive()
    case Ghost(h) => h.IsAlive()
    case Wanderer(w) => w.IsAlive()
    case Cultist(c) => c.IsAlive()
  }

  ghost predicate Valid(t: Target)
    reads Obj(t)
  {
    match t
    case Player(_) => true
    case Goblin(g) => g.Valid()
    case Ghost(h) => h.Valid()
    case Wanderer(w) => w.Valid()
    case Cultist(c) => c.Valid()
  }

  /** Whether `TakeDamage(damage)` throws: the hit kills an enemy that has no NavMeshAgent, and its Die
      fails at `agent.isStopped`. PlayerState never throws. */
  predicate Throws(t: Target, damage: real)
    reads Obj(t)
  {
    match t
    case Player(_) => false
    case Goblin(g) => Goblins.Kills(g.Snapshot(), damage) && !g.hasAgent
    case Ghost(h) => Ghosts.Kills(h.Snapshot(), damage, h.config.physicalDamageImmunityThreshold) && !h.hasAgent
    case Wanderer(w) => MeleeWanderers.Kills(w.Snapshot(), damage) && !w.hasAgent
    case Cultist(c) => Cultists.Kills(c.Snapshot(), damage) && !c.hasAgent
  }

  /** Every field of the target that TakeDamage writes or must leave alone. */
  datatype Status =
    | PlayerStatus(vitals: Players.Vitals, magic: real, invincible: bool, blocking: bool)
    | GoblinStatus(goblin: Goblins.State)
    | GhostStatus(spirit: Ghosts.State)
    | WandererStatus(wanderer: MeleeWanderers.State)
    | CultistStatus(cultist: Cultists.State)

  function StatusOf(t: Target): Status
    reads Obj(t)
  {
    match t
    case Player(p) => PlayerStatus(p.Snapshot(), p.currentMagic, p.isInvincible, p.isBlocking)
    case Goblin(g) => GoblinStatus(g.Snapshot())
    case Ghost(h) => GhostStatus(h.Snapshot())
    case Wanderer(w) => WandererStatus(w.Snapshot())
    case Cultist(c) => CultistStatus(c.Snapshot())
  }

  /** The status after one `TakeDamage(damage)` at time `now`, as the implementing script computes it:
      `Players.Hit` on the player's HP and last-hit time, each enemy's own `Struck`. */
  function AfterHit(t: Target, s: Status, damage: real, now: real): Status
  {
    match t
    case Player(p) =>
      if s.PlayerStatus? then s.(vitals := Players.Hit(s.vitals, s.invincible, s.blocking, p.config, damage, now))
      else s
    case Goblin(g) => if s.GoblinStatus? then GoblinStatus(Goblins.Struck(s.goblin, damage, g.hasAgent)) else s
    case Ghost(h) =>
      if s.GhostStatus? then
        GhostStatus(Ghosts.Struck(s.spirit, damage, h.config.physicalDamageImmunityThreshold, h.hasAgent))
      else s
    case Wanderer(w) =>
      if s.WandererStatus? then WandererStatus(MeleeWanderers.Struck(s.wanderer, damage, w.hasAgent)) else s
    case Cultist(c) => if s.CultistStatus? then CultistStatus(Cultists.Struck(s.cultist, damage, c.hasAgent)) else s
  }

  /** What one `TakeDamage(damage)` call at time `now` did to the target: the whole new state, as the
      implementing script's own TakeDamage leaves it. */
  twostate predicate Took(t: Target, damage: real, now: real)
    reads Obj(t)
  {
    StatusOf(t) == AfterHit(t, old(StatusOf(t)), damage, now)
  }

  /** `damageable.TakeDamage(damage)`, dispatched to the implementing script; `threw` is the exception
      it raises, after which the state is still as `Took` says. */
  method TakeDamage(t: Target, damage: real, now: real) returns (threw: bool)
    requires Valid(t)
    modifies Obj(t)
    ensures Valid(t)
    ensures Took(t, damage, now)
    ensures threw <==> old(Throws(t, damage))
  {
    match t
    case Player(p) => p.TakeDamage(damage, now); threw := false;
    case Goblin(g) => threw := g.TakeDamage(damage);
    case Ghost(h) => threw := h.TakeDamage(damage);
    case Wanderer(w) => threw := w.TakeDamage(damage);
    case Cultist(c) => threw := c.TakeDamage(damage);
  }
}
