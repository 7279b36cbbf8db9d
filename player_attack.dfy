/** PlayerAttack: the player's sword. A left click outside gauntlet mode starts an attack when the
    cooldown has passed; the damage lands `attackDelay` seconds later on every living damageable within
    range except the player. */
module PlayerAttacks {
  import opened Basics
  import opened Invocations
  import opened Damageables

  /** The inspector settings of PlayerAttack. */
  datatype Config = Config(attackDamage: real, attackRange: real, attackDelay: real, attackCooldown: real)

  const Defaults: Config := Config(50.0, 2.5, 0.3, 1.0)

  /** `lastAttackTime` before the first attack, so that the first click always attacks. */
  const NeverAttacked: real := -999.0

  /** The inputs one Update reads: LMB pressed this frame, RMB held, and Time.time. */
  datatype Press = Press(lmbDown: bool, rmbHeld: bool, now: real)

  /** An attack starts: LMB pressed in this frame, not in gauntlet mode, and a cooldown since the last. */
  predicate Starts(last: real, cooldown: real, p: Press)
  {
    p.lmbDown && !p.rmbHeld && p.now - last >= cooldown
  }

  /** The times at which a run of frames starts attacks, beginning from `lastAttackTime == last`. */
  function AttackTimes(last: real, cooldown: real, presses: seq<Press>): seq<real>
    decreases |presses|
  {
    if presses == [] then []
    else if Starts(last, cooldown, presses[0]) then [presses[0].now] + AttackTimes(presses[0].now, cooldown, presses[1..])
    else AttackTimes(last, cooldown, presses[1..])
  }

  /** Attacks are at least one cooldown apart, and the first is at least one cooldown after `last`,
      whatever the clock readings are. */
  lemma {:induction false} AttacksSpaced(last: real, cooldown: real, presses: seq<Press>)
    ensures |AttackTimes(last, cooldown, presses)| > 0 ==> AttackTimes(last, cooldown, presses)[0] - last >= cooldown
    ensures forall i :: 0 <= i < |AttackTimes(last, cooldown, presses)| - 1 ==>
              AttackTimes(last, cooldown, presses)[i + 1] - AttackTimes(last, cooldown, presses)[i] >= cooldown
    decreases |presses|
  {
    if presses != [] {
      if Starts(last, cooldown, presses[0]) {
        AttacksSpaced(presses[0].now, cooldown, presses[1..]);
        var rest := AttackTimes(presses[0].now, cooldown, presses[1..]);
        assert AttackTimes(last, cooldown, presses) == [presses[0].now] + rest;
        assert forall i :: 1 <= i < |rest| + 1 ==> ([presses[0].now] + rest)[i] == rest[i - 1];
      } else {
        AttacksSpaced(last, cooldown, presses[1..]);
      }
    }
  }

  /** Each frame starts at most one attack, so there are never more attacks than frames. */
  lemma {:induction false} AtMostOneAttackPerFrame(last: real, cooldown: real, presses: seq<Press>)
    ensures |AttackTimes(last, cooldown, presses)| <= |presses|
    decreases |presses|
  {
    if presses != [] {
      if Starts(last, cooldown, presses[0]) {
        AtMostOneAttackPerFrame(presses[0].now, cooldown, presses[1..]);
      } else {
        AtMostOneAttackPerFrame(last, cooldown, presses[1..]);
      }
    }
  }

  /** One collider returned by the overlap query: the damageable on it, if any, and whether it belongs
      to the attacking player. */
  datatype Hit = Hit(target: Option<Target>, isSelf: bool)

  /** An untouched damageable hit that is struck: alive, and not the player's own. */
  predicate Eligible(h: Hit)
    reads if h.target.Some? then {Obj(h.target.value)} else {}
  {
    h.target.Some? && Alive(h.target.value) && !h.isSelf
  }

  /** The script objects a hit list reaches. */
  function Footprint(hits: seq<Hit>): set<object>
  {
    set j | 0 <= j < |hits| && hits[j].target.Some? :: Obj(hits[j].target.value)
  }

  /** Each damageable is reached through one collider only. */
  predicate Distinct(hits: seq<Hit>)
  {
    forall j, k :: 0 <= j < k < |hits| && hits[j].target.Some? && hits[k].target.Some? ==>
      Obj(hits[j].target.value) != Obj(hits[k].target.value)
  }

  /** A struck collider whose TakeDamage throws, which ends the hit loop. */
  predicate Aborts(h: Hit, damage: real)
    reads if h.target.Some? then {Obj(h.target.value)} else {}
  {
    Eligible(h) && Throws(h.target.value, damage)
  }

  /** The index of the first collider from `from` on whose hit throws, or `|hits|` when none does. */
  function FirstThrow(hits: seq<Hit>, damage: real, from: nat): (k: nat)
    requires from <= |hits|
    reads Footprint(hits)
    ensures from <= k <= |hits|
    ensures forall j :: from <= j < k ==> !Aborts(hits[j], damage)
    ensures k < |hits| ==> Aborts(hits[k], damage)
    decreases |hits| - from
  {
    if from == |hits| then |hits|
    else if Aborts(hits[from], damage) then from
    else FirstThrow(hits, damage, from + 1)
  }

  class PlayerAttack {
    const config: Config
    var lastAttackTime: real
    /** Invocations scheduled with Invoke and not yet run. */
    var pending: seq<Invocation>

    constructor (config: Config)
      ensures this.config == config && lastAttackTime == NeverAttacked && pending == []
    {
      this.config := config;
      lastAttackTime := NeverAttacked;
      pending := [];
    }

    /** The cooldown gate: on an attack, schedule DealDamage and remember the time. */
    method Update(p: Press)
      modifies this`lastAttackTime, this`pending
      ensures Starts(old(lastAttackTime), config.attackCooldown, p) ==>
                lastAttackTime == p.now && pending == old(pending) + [Invocation(Callback.DealDamage, config.attackDelay)]
      ensures !Starts(old(lastAttackTime), config.attackCooldown, p) ==>
                lastAttackTime == old(lastAttackTime) && pending == old(pending)
    {
      if p.lmbDown && !p.rmbHeld {
        if p.now - lastAttackTime >= config.attackCooldown {
          Attack();
          lastAttackTime := p.now;
        }
      }
    }

    /** Schedules exactly one DealDamage after `attackDelay`. */
    method Attack()
      modifies this`pending
      ensures pending == old(pending) + [Invocation(Callback.DealDamage, config.attackDelay)]
    {
      pending := pending + [Invocation(Callback.DealDamage, config.attackDelay)];
    }

    /** The hit loop over the colliders in range: every living damageable that is not the player's own
        takes `attackDamage`, up to and including the first whose TakeDamage throws; the exception
        (`threw`) leaves the loop, so the colliders after it, like the ones not struck, are left as they
        were. */
    method DealDamage(hits: seq<Hit>, now: real) returns (threw: bool)
      requires Distinct(hits)
      requires forall j :: 0 <= j < |hits| && hits[j].target.Some? ==> Valid(hits[j].target.value)
      modifies Footprint(hits)
      ensures forall j :: 0 <= j < |hits| && hits[j].target.Some? ==> Valid(hits[j].target.value)
      ensures threw <==> old(FirstThrow(hits, config.attackDamage, 0)) < |hits|
      ensures forall j :: 0 <= j < |hits| && j <= old(FirstThrow(hits, config.attackDamage, 0))
                          && old(Eligible(hits[j])) ==>
                Took(hits[j].target.value, config.attackDamage, now)
      ensures forall j :: 0 <= j < |hits| && hits[j].target.Some?
                          && !(j <= old(FirstThrow(hits, config.attackDamage, 0)) && old(Eligible(hits[j]))) ==>
                unchanged(Obj(hits[j].target.value))
    {
      ghost var k := FirstThrow(hits, config.attackDamage, 0);
      threw := false;
      var i := 0;
      while i < |hits| && !threw
        invariant 0 <= i <= |hits|
        invariant !threw ==> i <= k
        invariant threw ==> i == k + 1
        invariant forall j :: 0 <= j < |hits| && hits[j].target.Some? ==> Valid(hits[j].target.value)
        invariant forall j :: 0 <= j < i && old(Eligible(hits[j])) ==> Took(hits[j].target.value, config.attackDamage, now)
        invariant forall j :: 0 <= j < |hits| && hits[j].target.Some? && !(j < i && old(Eligible(hits[j]))) ==>
                    unchanged(Obj(hits[j].target.value))
      {
        threw := Strike(hits, i, now);
        i := i + 1;
      }
    }

    /** One pass of the hit loop: the collider at `i` is struck when it holds a living damageable that is
        not the player's own; no other collider's damageable is touched. */
    method Strike(hits: seq<Hit>, i: nat, now: real) returns (threw: bool)
      requires i < |hits| && Distinct(hits)
      requires forall j :: 0 <= j < |hits| && hits[j].target.Some? ==> Valid(hits[j].target.value)
      modifies if hits[i].target.Some? then {Obj(hits[i].target.value)} else {}
      ensures forall j :: 0 <= j < |hits| && hits[j].target.Some? ==> Valid(hits[j].target.value)
      ensures threw <==> old(Aborts(hits[i], config.attackDamage))
      ensures old(Eligible(hits[i])) ==> Took(hits[i].target.value, config.attackDamage, now)
      ensures forall j :: 0 <= j < |hits| && hits[j].target.Some? && !(j == i && old(Eligible(hits[i]))) ==>
                unchanged(Obj(hits[j].target.value))
    {
      threw := false;
      var hit := hits[i];
      if hit.target.Some? && Alive(hit.target.value) {
        if !hit.isSelf {
          threw := TakeDamage(hit.target.value, config.attackDamage, now);
        }
      }
    }

    /** The engine runs the oldest pending invocation, DealDamage, on the colliders found in range at
        that moment; an exception inside it ends that invocation only (`threw`). */
    method RunDueInvocation(hits: seq<Hit>, now: real) returns (threw: bool)
      requires Distinct(hits)
      requires forall j :: 0 <= j < |hits| && hits[j].target.Some? ==> Valid(hits[j].target.value)
      requires this !in Footprint(hits)
      modifies this`pending, Footprint(hits)
      ensures pending == if old(pending) == [] then [] else old(pending)[1..]
      ensures forall j :: 0 <= j < |hits| && hits[j].target.Some? ==> Valid(hits[j].target.value)
      ensures threw <==> old(pending) != [] && old(FirstThrow(hits, config.attackDamage, 0)) < |hits|
      ensures forall j :: 0 <= j < |hits| && old(pending) != [] && j <= old(FirstThrow(hits, config.attackDamage, 0))
                          && old(Eligible(hits[j])) ==>
                Took(hits[j].target.value, config.attackDamage, now)
      ensures forall j :: 0 <= j < |hits| && hits[j].target.Some?
                          && (old(pending) == [] || !(j <= old(FirstThrow(hits, config.attackDamage, 0))
                                                      && old(Eligible(hits[j])))) ==>
                unchanged(Obj(hits[j].target.value))
    {
      threw := false;
      if pending != [] {
        pending := pending[1..];
        threw := DealDamage(hits, now);
      }
    }
  }
}
