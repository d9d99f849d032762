/**
 * `checkIfRoleCanAct` of the game hook: whether the options record a role
 * hands to the screen lets the role act, and what that verdict is for the
 * records the roles actually return.
 */
module CanAct {
  import opened Basics
  import opened Roles
  import opened Players
  import opened GameStates
  import opened RoleBehaviour

  /** A truthy `requiresTargetCount`: present and not zero. */
  predicate CountRequired(o: ActionOptions)
  {
    o.requiresTargetCount.Given? && o.requiresTargetCount.value != 0
  }

  /**
   * `checkIfRoleCanAct`. An explicit `canAct: false` forbids; a present
   * `availableTargets` decides by being non-empty and, with a truthy
   * `requiresTargetCount`, long enough; otherwise a present `canShoot`
   * decides (an undefined one counting as false); anything else may act.
   */
  function CheckIfRoleCanAct(o: ActionOptions): (b: bool)
    ensures o.canAct == Given(false) ==> !b
    ensures o.canAct != Given(false) && !o.availableTargets.Absent? ==>
      (b <==> o.availableTargets.Given? && |o.availableTargets.value| > 0 &&
              (CountRequired(o) ==> |o.availableTargets.value| >= o.requiresTargetCount.value))
    ensures o.canAct != Given(false) && o.availableTargets.Absent? && !o.canShoot.Absent? ==>
      (b <==> o.canShoot == Given(true))
    ensures o.canAct != Given(false) && o.availableTargets.Absent? && o.canShoot.Absent? ==> b
  {
    if o.canAct == Given(false) then false
    else if !o.availableTargets.Absent? then
      if o.availableTargets.Undefined? || |o.availableTargets.value| == 0 then false
      else if CountRequired(o) then |o.availableTargets.value| >= o.requiresTargetCount.value
      else true
    else if !o.canShoot.Absent? then o.canShoot == Given(true)
    else true
  }

  /** Some living player other than `self`. */
  predicate AnyOtherLiving(ps: seq<PlayerRec>, self: PlayerId)
  {
    exists k :: 0 <= k < |ps| && ps[k].isAlive && ps[k].id != self
  }

  /** Some living player. */
  predicate AnyLiving(ps: seq<PlayerRec>)
  {
    exists k :: 0 <= k < |ps| && ps[k].isAlive
  }

  lemma {:induction false} OthersNonEmpty(ps: seq<PlayerRec>, self: PlayerId)
    ensures |Others(Living(ps), self)| > 0 <==> AnyOtherLiving(ps, self)
  {
    OthersLivingIds(ps, self);
    var others := Others(Living(ps), self);
    if |others| > 0 {
      assert IdsOf(others)[0] in IdsOf(others);
    }
    if AnyOtherLiving(ps, self) {
      var k :| 0 <= k < |ps| && ps[k].isAlive && ps[k].id != self;
      assert ps[k].id in IdsOf(others);
    }
  }

  lemma {:induction false} LivingNonEmpty(ps: seq<PlayerRec>)
    ensures |Living(ps)| > 0 <==> AnyLiving(ps)
  {
    if |Living(ps)| > 0 {
      assert Living(ps)[0] in ps;
      var k :| 0 <= k < |ps| && ps[k] == Living(ps)[0];
      assert ps[k].isAlive;
    }
    if AnyLiving(ps) {
      var k :| 0 <= k < |ps| && ps[k].isAlive;
      assert ps[k] in Living(ps);
    }
  }

  /**
   * `checkIfRoleCanAct(role.getActionOptions(gameState, player))`, as the
   * first-night card runs it right after a role is assigned.
   */
  function CanActAsWritten(r: Role, s: State, self: PlayerRec): Call<bool>
  {
    match ActionOptionsAsWritten(r, s, self)
    case TypeError => TypeError
    case Done(o) => Done(CheckIfRoleCanAct(o))
  }

  /** The check on the record the screen evidently means to read. */
  function CanActOf(r: Role, s: State, self: PlayerRec, f: PotionFlags): bool
  {
    CheckIfRoleCanAct(ScreenOptions(r, s, self, f))
  }

  /**
   * As written, the check never gets its record for Villager, Witch, Hunter,
   * Cupid or any decorated role: the call to `getActionOptions` throws
   * first. Where it does get one, it agrees with the intended check.
   */
  lemma CanActThrowsWithoutActionOptions(r: Role, s: State, self: PlayerRec, f: PotionFlags)
    ensures CanActAsWritten(r, s, self).TypeError? <==>
      r.VillagerRole? || r.WitchRole? || r.HunterRole? || r.CupidRole? || r.LoverRole?
    ensures CanActAsWritten(r, s, self).Done? ==> CanActAsWritten(r, s, self).value == CanActOf(r, s, self, f)
  {
    ActionOptionsAsWrittenFails(r, s, self);
  }

  /**
   * The Werewolf, the Seer and the Bodyguard can act exactly when some
   * other player is alive; packmates marked invalid still count as targets.
   * For these three the check as written reaches the same verdict.
   */
  lemma TargetingRolesCanAct(r: Role, s: State, self: PlayerRec, f: PotionFlags)
    requires r == WerewolfRole || r == SeerRole || r == BodyguardRole
    ensures CanActOf(r, s, self, f) <==> AnyOtherLiving(s.players, self.id)
    ensures CanActAsWritten(r, s, self) == Done(CanActOf(r, s, self, f))
  {
    OthersNonEmpty(s.players, self.id);
  }

  /**
   * With `getUiContext` standing in, the Hunter can act exactly when someone
   * is alive: its targets decide before `canShoot` is looked at, so a living
   * Hunter can act too.
   */
  lemma HunterCanAct(s: State, self: PlayerRec, f: PotionFlags)
    ensures CanActOf(HunterRole, s, self, f) <==> AnyLiving(s.players)
  {
    LivingNonEmpty(s.players);
  }

  /** Likewise Cupid can act on day 1 only, and then only when someone is alive. */
  lemma CupidCanAct(s: State, self: PlayerRec, f: PotionFlags)
    ensures CanActOf(CupidRole, s, self, f) <==> s.dayNumber == 1 && AnyLiving(s.players)
  {
    LivingNonEmpty(s.players);
  }

  /**
   * The Villager's and the Witch's records carry none of the deciding keys,
   * so with `getUiContext` standing in both can always act, whatever the
   * potions and the night's kills.
   */
  lemma VillagerAndWitchCanAct(w: Witch, s: State, self: PlayerRec, f: PotionFlags)
    ensures CanActOf(VillagerRole, s, self, f)
    ensures CanActOf(WitchRole(w), s, self, f)
  {
  }

  /** A Lovers-decorated role gets the verdict of the role it wraps. */
  lemma LoverCanAct(w: Role, s: State, self: PlayerRec, f: PotionFlags)
    ensures CanActOf(LoverRole(w), s, self, f) == CanActOf(w, s, self, f)
  {
  }
}
