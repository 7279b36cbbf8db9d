/** GauntletAbilities: while the right mouse button is held the gauntlet is active; E cycles through the
    enabled abilities in the order Fire, Ice, Invincible, Light; the left mouse button channels Fire, Ice
    or Light, draining magic each frame, or triggers a timed invincibility. */
module Gauntlets {
  import opened Basics
  import Players

  /** AbilityType, in declaration order. */
  datatype Ability = Fire | Ice | Invincible | Light

  /** `(int)ability`. */
  function Index(a: Ability): (i: nat)
    ensures i < 4
    ensures FromIndex(i) == a
  {
    match a
    case Fire => 0
    case Ice => 1
    case Invincible => 2
    case Light => 3
  }

  /** `(AbilityType)i`. */
  function FromIndex(i: nat): Ability
    requires i < 4
  {
    if i == 0 then Fire else if i == 1 then Ice else if i == 2 then Invincible else Light
  }

  /** The cast back to an index is exact. */
  lemma IndexOfFromIndex(i: nat)
    requires i < 4
    ensures Index(FromIndex(i)) == i
  {
  }

  /** The ability k places after `a` in the cyclic order: `(AbilityType)(((int)a + k) % 4)`. */
  function Step(a: Ability, k: nat): Ability
  {
    FromIndex((Index(a) + k) % 4)
  }

  /** The four availability toggles. */
  datatype Toggles = Toggles(fire: bool, ice: bool, invincible: bool, light: bool)

  const DefaultToggles: Toggles := Toggles(true, true, true, false)

  /** IsAbilityEnabled: the toggle of that ability. */
  predicate Enabled(t: Toggles, a: Ability): (on: bool)
    ensures on ==> AnyEnabled(t)
  {
    match a
    case Fire => t.fire
    case Ice => t.ice
    case Invincible => t.invincible
    case Light => t.light
  }

  predicate AnyEnabled(t: Toggles)
  {
    t.fire || t.ice || t.invincible || t.light
  }

  /** Some ability is enabled exactly when one of the toggles is on. */
  lemma AnyEnabledIffSome(t: Toggles)
    ensures AnyEnabled(t) <==> exists a :: Enabled(t, a)
  {
    if AnyEnabled(t) {
      var a := if t.fire then Fire else if t.ice then Ice else if t.invincible then Invincible else Light;
      assert Enabled(t, a);
    }
  }

  /** Four steps bring every ability back to itself. */
  lemma FullCycle(a: Ability)
    ensures Step(a, 4) == a
  {
  }

  /** Steps 1 to 4 after `a` reach every ability, `a` itself last. */
  lemma StepCoversAll(a: Ability, b: Ability)
    ensures exists k :: 1 <= k <= 4 && Step(a, k) == b
  {
    var k := if Index(a) < Index(b) then Index(b) - Index(a) else Index(b) + 4 - Index(a);
    assert Step(a, k) == b;
  }

  /** One more step from step k is step k + 1. */
  lemma StepSucc(a: Ability, k: nat)
    ensures Step(a, k + 1) == FromIndex((Index(Step(a, k)) + 1) % 4)
  {
    IndexOfFromIndex((Index(a) + k) % 4);
  }

  /** The index arithmetic of CycleAbility: one more wrapped increment is one more step. */
  lemma StepFromIndex(a: Ability, k: nat, index: nat)
    requires k >= 1 && index < 4 && FromIndex(index) == Step(a, k - 1)
    ensures FromIndex((index + 1) % 4) == Step(a, k)
  {
    StepSucc(a, k - 1);
    IndexOfFromIndex(index);
  }

  /** The first k in [from, 4] whose ability is enabled, counting k steps after `a`. */
  function Search(t: Toggles, a: Ability, from: nat): (r: Option<nat>)
    requires 1 <= from <= 5
    ensures r.Some? ==> from <= r.value <= 4 && Enabled(t, Step(a, r.value))
                        && forall j :: from <= j < r.value ==> !Enabled(t, Step(a, j))
    ensures r.None? ==> forall j :: from <= j <= 4 ==> !Enabled(t, Step(a, j))
    decreases 5 - from
  {
    if from == 5 then None
    else if Enabled(t, Step(a, from)) then Some(from)
    else Search(t, a, from + 1)
  }

  /** Where CycleAbility lands: the first enabled ability after the current one in cyclic order (the
      current one itself if it is the only one enabled); no change when none is enabled. */
  function CycleTarget(t: Toggles, a: Ability): Ability
  {
    match Search(t, a, 1)
    case Some(k) => Step(a, k)
    case None => a
  }

  /** CycleAbility lands on an enabled ability whenever there is one, and on nothing else. */
  lemma CycleTargetEnabled(t: Toggles, a: Ability)
    ensures Enabled(t, CycleTarget(t, a)) <==> AnyEnabled(t)
    ensures !AnyEnabled(t) ==> CycleTarget(t, a) == a
  {
    if Search(t, a, 1).None? && AnyEnabled(t) {
      AnyEnabledIffSome(t);
      var b :| Enabled(t, b);
      StepCoversAll(a, b);
      assert false;
    }
  }

  /** Steps 1 to 4 after an ability are four different abilities. */
  lemma StepInjective(a: Ability, j: nat, k: nat)
    requires 1 <= j <= 4 && 1 <= k <= 4
    requires Step(a, j) == Step(a, k)
    ensures j == k
  {
    IndexOfFromIndex((Index(a) + j) % 4);
    IndexOfFromIndex((Index(a) + k) % 4);
  }

  /** Nothing enabled strictly between the current ability and where CycleAbility lands. */
  lemma CycleTargetIsFirst(t: Toggles, a: Ability, j: nat)
    requires AnyEnabled(t)
    requires 1 <= j <= 4 && Step(a, j) == CycleTarget(t, a)
    ensures forall i :: 1 <= i < j ==> !Enabled(t, Step(a, i))
  {
    CycleTargetEnabled(t, a);
    StepInjective(a, Search(t, a, 1).value, j);
  }

  /** When the current ability is the only one enabled, cycling keeps it. */
  lemma CycleKeepsLoneAbility(t: Toggles, a: Ability)
    requires Enabled(t, a)
    requires forall b :: Enabled(t, b) ==> b == a
    ensures CycleTarget(t, a) == a
  {
    CycleTargetEnabled(t, a);
  }

  /** Where EnsureCurrentAbilityIsEnabled lands: the current ability if it is enabled, otherwise the
      first enabled one after it, otherwise (nothing enabled) the current one. */
  function EnsureTarget(t: Toggles, a: Ability): (r: Ability)
    ensures Enabled(t, a) ==> r == a
    ensures !Enabled(t, a) ==> r == CycleTarget(t, a)
  {
    if Enabled(t, a) then a else CycleTarget(t, a)
  }

  /** After EnsureCurrentAbilityIsEnabled the current ability is enabled whenever any ability is. */
  lemma EnsureTargetEnabled(t: Toggles, a: Ability)
    ensures AnyEnabled(t) ==> Enabled(t, EnsureTarget(t, a))
  {
    CycleTargetEnabled(t, a);
  }

  // ---------------------------------------------------------------------------------------------
  // One frame of Update, as a function of the fields it reads and writes

  /** The inspector settings. */
  datatype Settings = Settings(invincibilityDuration: real, magicDrainRate: real)

  const Defaults: Settings := Settings(3.0, 10.0)

  /** The inputs one Update reads: the mouse buttons, the E key, Time.time and Time.deltaTime. */
  datatype Input = Input(rmbHeld: bool, eDown: bool, lmbDown: bool, lmbUp: bool, now: real, dt: real)

  /** The gauntlet's state together with the two PlayerState fields it reads and writes. */
  datatype Frame = Frame(active: bool, ability: Ability, casting: bool, endTime: real,
                         magic: real, invincible: bool)

  /** `magicDrainRate * Time.deltaTime`. */
  function Drain(s: Settings, dt: real): real
  {
    s.magicDrainRate * dt
  }

  /** StartCast succeeds: the ability is enabled, channelled (not Invincible), and there is a frame's
      worth of magic. */
  predicate CanStartCast(s: Settings, t: Toggles, f: Frame, dt: real)
  {
    Enabled(t, f.ability) && f.ability != Invincible && f.magic >= Drain(s, dt)
  }

  /** HandleContinuousCast: drain while strictly more magic than one frame's worth is left, else stop. */
  function DrainCast(s: Settings, f: Frame, dt: real): (r: Frame)
    ensures r.casting ==> r.magic > 0.0
    ensures f.magic > Drain(s, dt) ==> r == f.(magic := f.magic - Drain(s, dt))
    ensures f.magic <= Drain(s, dt) ==> r == f.(casting := false)
  {
    if f.magic > Drain(s, dt) then f.(magic := f.magic - Drain(s, dt)) else f.(casting := false)
  }

  /** The LMB part of the active-gauntlet block followed by the invincibility timer check. */
  function ActiveStep(s: Settings, t: Toggles, f: Frame, i: Input): Frame
  {
    var g :=
      if i.lmbDown && !f.casting && f.ability != Invincible && !f.invincible then
        f.(casting := CanStartCast(s, t, f, i.dt))
      else if i.lmbUp && f.casting then
        f.(casting := false)
      else if i.lmbDown && f.ability == Invincible && !f.invincible then
        (if Enabled(t, Invincible) then f.(invincible := true, endTime := i.now + s.invincibilityDuration) else f)
      else f;
    if i.now > g.endTime && g.invincible then g.(invincible := false) else g
  }

  /** One Update. */
  function Tick(s: Settings, t: Toggles, f: Frame, i: Input): Frame
  {
    var f1 := f.(active := i.rmbHeld);
    var f2 := if i.eDown then f1.(casting := false, ability := CycleTarget(t, f1.ability)) else f1;
    var f3 := if f2.active then ActiveStep(s, t, f2, i) else f2;
    var f4 := if !f3.active && f3.casting then f3.(casting := false) else f3;
    if f4.casting then DrainCast(s, f4, i.dt) else f4
  }

  /** A cast that is still running at the end of a frame has just been drained and left magic above zero. */
  lemma CastingMeansMagicLeft(s: Settings, t: Toggles, f: Frame, i: Input)
    ensures Tick(s, t, f, i).casting ==> Tick(s, t, f, i).magic > 0.0
  {
  }

  /** Releasing the gauntlet (RMB) ends any cast. */
  lemma ReleaseStopsCast(s: Settings, t: Toggles, f: Frame, i: Input)
    requires !i.rmbHeld
    ensures !Tick(s, t, f, i).casting
    ensures Tick(s, t, f, i).invincible == f.invincible
  {
  }

  /** Releasing LMB ends any cast, unless LMB was pressed again in the same frame. */
  lemma LmbReleaseStopsCast(s: Settings, t: Toggles, f: Frame, i: Input)
    requires i.lmbUp && !i.lmbDown
    ensures !Tick(s, t, f, i).casting
  {
  }

  /** Cycling with E ends any cast, unless LMB starts a new one in the same frame. */
  lemma CycleStopsCast(s: Settings, t: Toggles, f: Frame, i: Input)
    requires i.eDown && !i.lmbDown
    ensures !Tick(s, t, f, i).casting
    ensures Tick(s, t, f, i).ability == CycleTarget(t, f.ability)
  {
  }

  /** A cast only starts with the gauntlet active, LMB pressed, a channelled enabled ability, the player
      not invincible and at least one frame's worth of magic; it then drains that frame's magic (or
      stops again at once). */
  lemma CastStartConditions(s: Settings, t: Toggles, f: Frame, i: Input)
    requires !f.casting
    requires Tick(s, t, f, i).casting
    ensures i.rmbHeld && i.lmbDown && !f.invincible
    ensures Tick(s, t, f, i).ability != Invincible && Enabled(t, Tick(s, t, f, i).ability)
    ensures Tick(s, t, f, i).magic == f.magic - Drain(s, i.dt) > 0.0
  {
  }

  /** With exactly one frame's worth of magic, the cast starts and stops in the same frame and no magic is
      spent. */
  lemma ExactMagicStartsAndStops(s: Settings, t: Toggles, f: Frame, i: Input)
    requires i.rmbHeld && i.lmbDown && !i.eDown && !f.casting && !f.invincible
    requires f.ability != Invincible && Enabled(t, f.ability)
    requires f.magic == Drain(s, i.dt)
    ensures !Tick(s, t, f, i).casting && Tick(s, t, f, i).magic == f.magic
  {
  }

  /** Invincibility is only switched on by pressing LMB with the gauntlet active on the enabled
      Invincible ability, and then lasts until `now + invincibilityDuration`. */
  lemma InvincibilityStart(s: Settings, t: Toggles, f: Frame, i: Input)
    requires s.invincibilityDuration >= 0.0
    requires !f.invincible && Tick(s, t, f, i).invincible
    ensures i.rmbHeld && i.lmbDown && Enabled(t, Invincible)
    ensures Tick(s, t, f, i).ability == Invincible
    ensures Tick(s, t, f, i).endTime == i.now + s.invincibilityDuration
  {
  }

  /** Invincibility is only switched off with the gauntlet active once `now` is past the end time. */
  lemma InvincibilityEnd(s: Settings, t: Toggles, f: Frame, i: Input)
    requires f.invincible && !Tick(s, t, f, i).invincible
    ensures i.rmbHeld && i.now > f.endTime
  {
  }

  class GauntletAbilities {
    const settings: Settings
    var toggles: Toggles
    /** The PlayerState on the same object (a required component). */
    const playerState: Players.PlayerState
    var gauntletActive: bool
    var currentAbility: Ability
    var isCasting: bool
    var invincibilityEndTime: real

    /** The state one Update works on. */
    function View(): Frame
      reads this, playerState
    {
      Frame(gauntletActive, currentAbility, isCasting, invincibilityEndTime,
            playerState.currentMagic, playerState.isInvincible)
    }

    /** Awake and Start: inactive, not casting, Fire selected and then moved to an enabled ability. */
    constructor (settings: Settings, toggles: Toggles, playerState: Players.PlayerState)
      ensures this.settings == settings && this.toggles == toggles && this.playerState == playerState
      ensures !gauntletActive && !isCasting && invincibilityEndTime == 0.0
      ensures currentAbility == EnsureTarget(toggles, Fire)
    {
      this.settings := settings;
      this.toggles := toggles;
      this.playerState := playerState;
      gauntletActive := false;
      currentAbility := Fire;
      isCasting := false;
      invincibilityEndTime := 0.0;
      new;
      EnsureCurrentAbilityIsEnabled();
    }

    /** The toggle of `a` in the inspector settings. */
    predicate IsAbilityEnabled(a: Ability): (on: bool)
      reads this
      ensures on ==> AnyEnabled(toggles)
    {
      Enabled(toggles, a)
    }

    /** The `for` loop over the steps after the current ability, when the current one is disabled. */
    method EnsureCurrentAbilityIsEnabled()
      modifies this`currentAbility
      ensures currentAbility == EnsureTarget(toggles, old(currentAbility))
    {
      if IsAbilityEnabled(currentAbility) {
        return;
      }
      var startIndex := Index(currentAbility);
      for i := 1 to 5
        invariant currentAbility == old(currentAbility)
        invariant forall j :: 1 <= j < i ==> !Enabled(toggles, Step(currentAbility, j))
      {
        var nextAbility := FromIndex((startIndex + i) % 4);
        if IsAbilityEnabled(nextAbility) {
          SearchSkips(toggles, currentAbility, 1, i);
          currentAbility := nextAbility;
          return;
        }
      }
      assert Search(toggles, currentAbility, 1).None?;
    }

    /** The `for` loop that steps the index one place at a time and takes the first enabled ability. */
    method CycleAbility()
      modifies this`currentAbility
      ensures currentAbility == CycleTarget(toggles, old(currentAbility))
    {
      var start := currentAbility;
      var nextIndex := Index(start);
      for i := 1 to 5
        invariant nextIndex < 4 && FromIndex(nextIndex) == Step(start, i - 1)
        invariant forall j :: 1 <= j < i ==> !Enabled(toggles, Step(start, j))
      {
        StepFromIndex(start, i, nextIndex);
        nextIndex := (nextIndex + 1) % 4;
        var nextAbility := FromIndex(nextIndex);
        if IsAbilityEnabled(nextAbility) {
          SearchSkips(toggles, start, 1, i);
          currentAbility := nextAbility;
          return;
        }
      }
      currentAbility := start;
    }

    /** Channelling starts only for an enabled channelled ability with a frame's worth of magic. */
    method StartCast(dt: real)
      modifies this`isCasting
      ensures isCasting == (old(isCasting) || CanStartCast(settings, toggles, View(), dt))
    {
      if !IsAbilityEnabled(currentAbility) || currentAbility == Invincible {
        return;
      }
      if playerState.currentMagic < Drain(settings, dt) {
        return;
      }
      isCasting := true;
    }

    method StopCast()
      modifies this`isCasting
      ensures !isCasting
    {
      isCasting := false;
    }

    /** One frame of channelling. */
    method HandleContinuousCast(dt: real)
      modifies this`isCasting, playerState`currentMagic
      ensures View() == DrainCast(settings, old(View()), dt)
    {
      var magicToDrain := Drain(settings, dt);
      if playerState.currentMagic > magicToDrain {
        playerState.UseMagic(magicToDrain);
      } else {
        StopCast();
      }
    }

    /** The one-shot Invincible ability. */
    method TryActivateAbility(now: real)
      modifies this`invincibilityEndTime, playerState`isInvincible
      ensures currentAbility == Invincible && IsAbilityEnabled(Invincible) ==>
                playerState.isInvincible && invincibilityEndTime == now + settings.invincibilityDuration
      ensures !(currentAbility == Invincible && IsAbilityEnabled(Invincible)) ==>
                playerState.isInvincible == old(playerState.isInvincible)
                && invincibilityEndTime == old(invincibilityEndTime)
    {
      if currentAbility == Invincible && IsAbilityEnabled(currentAbility) {
        StartInvincibility(now);
      }
    }

    method StartInvincibility(now: real)
      modifies this`invincibilityEndTime, playerState`isInvincible
      ensures playerState.isInvincible && invincibilityEndTime == now + settings.invincibilityDuration
    {
      playerState.SetInvincible(true);
      invincibilityEndTime := now + settings.invincibilityDuration;
    }

    method EndInvincibility()
      modifies playerState`isInvincible
      ensures !playerState.isInvincible
    {
      playerState.SetInvincible(false);
    }

    /** The part of Update that runs while the gauntlet is active: LMB starts or stops a cast or
        triggers invincibility, then the invincibility timer is checked. */
    method ActiveFrame(i: Input)
      modifies this`isCasting, this`invincibilityEndTime, playerState`isInvincible
      ensures View() == ActiveStep(settings, toggles, old(View()), i)
    {
      if i.lmbDown && !isCasting && currentAbility != Invincible && !playerState.isInvincible {
        StartCast(i.dt);
      } else if i.lmbUp && isCasting {
        StopCast();
      } else if i.lmbDown && currentAbility == Invincible && !playerState.isInvincible {
        TryActivateAbility(i.now);
      }
      ghost var g := View();
      if i.now > invincibilityEndTime && playerState.isInvincible {
        EndInvincibility();
      }
      assert View() == if i.now > g.endTime && g.invincible then g.(invincible := false) else g;
    }

    /** One frame: the gauntlet follows RMB, E cycles, LMB starts or stops a cast or triggers
        invincibility, the invincibility timer is checked, and a running cast is drained. */
    method Update(i: Input)
      modifies this`gauntletActive, this`currentAbility, this`isCasting, this`invincibilityEndTime,
               playerState`currentMagic, playerState`isInvincible
      ensures View() == Tick(settings, toggles, old(View()), i)
    {
      gauntletActive := i.rmbHeld;
      ghost var f1 := View();
      if i.eDown {
        if isCasting {
          StopCast();
        }
        CycleAbility();
      }
      ghost var f2 := View();
      assert f2 == if i.eDown then f1.(casting := false, ability := CycleTarget(toggles, f1.ability)) else f1;
      if gauntletActive {
        ActiveFrame(i);
      }
      ghost var f3 := View();
      assert f3 == if f2.active then ActiveStep(settings, toggles, f2, i) else f2;
      if !gauntletActive && isCasting {
        StopCast();
      }
      if isCasting {
        HandleContinuousCast(i.dt);
      }
    }
  }

  /** Starting the search later skips only disabled abilities, so it finds the same one. */
  lemma {:induction false} SearchSkips(t: Toggles, a: Ability, from: nat, to: nat)
    requires 1 <= from <= to <= 5
    requires forall j :: from <= j < to ==> !Enabled(t, Step(a, j))
    ensures Search(t, a, from) == Search(t, a, to)
    decreases 5 - from
  {
    if from < to {
      SearchSkips(t, a, from + 1, to);
    }
  }
}
