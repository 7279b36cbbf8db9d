/** PlayerState: the player's HP and magic pools and the damage pipeline every enemy attack goes through
    (invincibility, the invulnerability window after a hit, block scaling, the clamp at zero). */
module Players {
  import opened Basics
  import opened Agents

  /** The inspector settings of PlayerState. */
  datatype Config = Config(maxHP: real, maxMagic: real, invulnerabilityDuration: real, blockDamageReduction: real)

  /** The script's defaults: 100 HP, 100 magic, half a second of invulnerability, blocking takes no damage. */
  const Defaults: Config := Config(100.0, 100.0, 0.5, 0.0)

  /** `lastDamageTime` before the first hit, so that the first hit is never inside the window. */
  const NeverHit: real := -999.0

  /** The damage TakeDamage subtracts, or None when the call is ignored: while invincible, within
      `invulnerabilityDuration` of the last applied hit, or when blocking scales the damage to nothing. */
  function AppliedDamage(invincible: bool, blocking: bool, sinceLastHit: real, c: Config, damage: real): (r: Option<real>)
    ensures r.Some? <==> !invincible && sinceLastHit >= c.invulnerabilityDuration
                         && (blocking ==> damage * c.blockDamageReduction > 0.0)
    ensures r.Some? ==> r.value == if blocking then damage * c.blockDamageReduction else damage
  {
    if invincible then None
    else if sinceLastHit < c.invulnerabilityDuration then None
    else if blocking then
      var reduced := damage * c.blockDamageReduction;
      if reduced <= 0.0 then None else Some(reduced)
    else Some(damage)
  }

  /** The part of the player that TakeDamage changes. */
  datatype Vitals = Vitals(hp: real, lastDamageTime: real)

  /** One TakeDamage call at time `now`, in terms of the values it reads and writes. */
  function Hit(v: Vitals, invincible: bool, blocking: bool, c: Config, damage: real, now: real): (r: Vitals)
    ensures invincible ==> r == v
    ensures now - v.lastDamageTime < c.invulnerabilityDuration ==> r == v
    ensures r != v ==> r.lastDamageTime == now
    ensures var applied := AppliedDamage(invincible, blocking, now - v.lastDamageTime, c, damage);
            applied.Some? ==> r.lastDamageTime == now && r.hp == HpAfterHit(v.hp, applied.value)
    ensures AppliedDamage(invincible, blocking, now - v.lastDamageTime, c, damage).None? ==> r == v
    ensures v.hp >= 0.0 ==> r.hp >= 0.0
  {
    match AppliedDamage(invincible, blocking, now - v.lastDamageTime, c, damage)
    case None => v
    case Some(d) => Vitals(HpAfterHit(v.hp, d), now)
  }

  /** A blocked hit that the block factor scales to nothing or less changes neither HP nor the last-hit
      time, even outside the invulnerability window. */
  lemma BlockedToNothingIsIgnored(v: Vitals, c: Config, damage: real, now: real)
    requires damage * c.blockDamageReduction <= 0.0
    ensures Hit(v, false, true, c, damage, now) == v
  {
  }

  /** Once a hit has been applied at time t, every call before t + invulnerabilityDuration is ignored. */
  lemma HitOpensWindow(v: Vitals, c: Config, inv1: bool, blk1: bool, d1: real, t1: real,
                       inv2: bool, blk2: bool, d2: real, t2: real)
    requires Hit(v, inv1, blk1, c, d1, t1).lastDamageTime == t1 != v.lastDamageTime
    requires t2 - t1 < c.invulnerabilityDuration
    ensures Hit(Hit(v, inv1, blk1, c, d1, t1), inv2, blk2, c, d2, t2) == Hit(v, inv1, blk1, c, d1, t1)
  {
  }

  /** A call of TakeDamage together with the flags it was made under. */
  datatype Incoming = Incoming(damage: real, now: real, invincible: bool, blocking: bool)

  function HitAll(v: Vitals, c: Config, hits: seq<Incoming>): Vitals
    decreases |hits|
  {
    if hits == [] then v
    else HitAll(Hit(v, hits[0].invincible, hits[0].blocking, c, hits[0].damage, hits[0].now), c, hits[1..])
  }

  /** HP never drops below zero, whatever the sequence of hits. */
  lemma {:induction false} HpNeverNegative(v: Vitals, c: Config, hits: seq<Incoming>)
    requires v.hp >= 0.0
    ensures HitAll(v, c, hits).hp >= 0.0
    decreases |hits|
  {
    if hits != [] {
      HpNeverNegative(Hit(v, hits[0].invincible, hits[0].blocking, c, hits[0].damage, hits[0].now), c, hits[1..]);
    }
  }

  /** A player who stays invincible throughout is not touched by any sequence of hits. */
  lemma {:induction false} InvincibleTakesNothing(v: Vitals, c: Config, hits: seq<Incoming>)
    requires forall i :: 0 <= i < |hits| ==> hits[i].invincible
    ensures HitAll(v, c, hits) == v
    decreases |hits|
  {
    if hits != [] {
      InvincibleTakesNothing(v, c, hits[1..]);
    }
  }

  /** With non-negative damage and block factor, HP can only go down. */
  lemma {:induction false} HpNonIncreasing(v: Vitals, c: Config, hits: seq<Incoming>)
    requires v.hp >= 0.0
    requires c.blockDamageReduction >= 0.0
    requires forall i :: 0 <= i < |hits| ==> hits[i].damage >= 0.0
    ensures HitAll(v, c, hits).hp <= v.hp
    decreases |hits|
  {
    if hits != [] {
      var w := Hit(v, hits[0].invincible, hits[0].blocking, c, hits[0].damage, hits[0].now);
      assert hits[0].damage * c.blockDamageReduction >= 0.0;
      assert w.hp <= v.hp;
      HpNonIncreasing(w, c, hits[1..]);
    }
  }

  /** A dead player (HP at zero or below) stays dead under any sequence of non-negative hits, as long as
      blocking does not turn damage into healing. */
  lemma {:induction false} DeadStaysDead(v: Vitals, c: Config, hits: seq<Incoming>)
    requires v.hp <= 0.0
    requires c.blockDamageReduction >= 0.0
    requires forall i :: 0 <= i < |hits| ==> hits[i].damage >= 0.0
    ensures HitAll(v, c, hits).hp <= 0.0
    decreases |hits|
  {
    if hits != [] {
      var w := Hit(v, hits[0].invincible, hits[0].blocking, c, hits[0].damage, hits[0].now);
      assert hits[0].damage * c.blockDamageReduction >= 0.0;
      assert w.hp <= 0.0;
      DeadStaysDead(w, c, hits[1..]);
    }
  }

  class PlayerState {
    const config: Config
    var currentHP: real
    var currentMagic: real
    var lastDamageTime: real
    var isBlocking: bool
    var isInvincible: bool

    /** Start: both pools full, never hit, neither blocking nor invincible. */
    constructor (config: Config)
      ensures this.config == config
      ensures currentHP == config.maxHP && currentMagic == config.maxMagic
      ensures lastDamageTime == NeverHit && !isBlocking && !isInvincible
    {
      this.config := config;
      currentHP := config.maxHP;
      currentMagic := config.maxMagic;
      lastDamageTime := NeverHit;
      isBlocking := false;
      isInvincible := false;
    }

    /** The fields TakeDamage may change. */
    function Snapshot(): Vitals
      reads this
    {
      Vitals(currentHP, lastDamageTime)
    }

    /** The whole state after one TakeDamage(damage) at time `now`: HP and the time of the last applied
        hit as `Hit` gives them, magic and both flags as they were. */
    twostate predicate TookDamage(damage: real, now: real)
      reads this
    {
      && Snapshot() == Hit(old(Snapshot()), old(isInvincible), old(isBlocking), config, damage, now)
      && currentMagic == old(currentMagic) && isInvincible == old(isInvincible) && isBlocking == old(isBlocking)
    }

    /** The damage pipeline; the clock reading Time.time is the parameter `now`. */
    method TakeDamage(damage: real, now: real)
      modifies this`currentHP, this`lastDamageTime
      ensures Snapshot() == Hit(old(Snapshot()), isInvincible, isBlocking, config, damage, now)
      ensures TookDamage(damage, now)
      ensures !old(IsAlive()) && damage >= 0.0 && config.blockDamageReduction >= 0.0 ==> !IsAlive()
    {
      if isInvincible {
        return;
      }
      if now - lastDamageTime < config.invulnerabilityDuration {
        return;
      }
      var amount := damage;
      if isBlocking {
        amount := amount * config.blockDamageReduction;
        if amount <= 0.0 {
          return;
        }
      }
      currentHP := currentHP - amount;
      lastDamageTime := now;
      if currentHP <= 0.0 {
        currentHP := 0.0;
      }
    }

    /** `currentHP = Mathf.Min(currentHP + amount, maxHP)`. */
    method Heal(amount: real)
      modifies this`currentHP
      ensures currentHP == Min(old(currentHP) + amount, config.maxHP)
      ensures currentHP <= config.maxHP
      ensures old(currentHP) + amount <= config.maxHP ==> currentHP == old(currentHP) + amount
    {
      currentHP := Min(currentHP + amount, config.maxHP);
    }

    /** Spends `amount` only when there is at least that much magic. */
    method UseMagic(amount: real)
      modifies this`currentMagic
      ensures old(currentMagic) >= amount ==> currentMagic == old(currentMagic) - amount
      ensures old(currentMagic) < amount ==> currentMagic == old(currentMagic)
    {
      if currentMagic >= amount {
        currentMagic := currentMagic - amount;
      }
    }

    /** `currentMagic = Mathf.Min(currentMagic + amount, maxMagic)`. */
    method RestoreMagic(amount: real)
      modifies this`currentMagic
      ensures currentMagic == Min(old(currentMagic) + amount, config.maxMagic)
      ensures currentMagic <= config.maxMagic
      ensures old(currentMagic) + amount <= config.maxMagic ==> currentMagic == old(currentMagic) + amount
    {
      currentMagic := Min(currentMagic + amount, config.maxMagic);
    }

    /** HP above zero, read off the part of the state that `Hit` works on. */
    predicate IsAlive(): (alive: bool)
      reads this
      ensures alive <==> Snapshot().hp > 0.0
    {
      currentHP > 0.0
    }

    method SetBlocking(blocking: bool)
      modifies this`isBlocking
      ensures isBlocking == blocking
    {
      isBlocking := blocking;
    }

    method SetInvincible(invincible: bool)
      modifies this`isInvincible
      ensures isInvincible == invincible
    {
      isInvincible := invincible;
    }
  }
}
