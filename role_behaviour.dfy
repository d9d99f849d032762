/**
 * What each role does: the actions its `createAction` builds from the game
 * master's payload (the Witch spending her potions as she goes), its
 * reaction to game events, and the options record its `getActionOptions`
 * or `getUiContext` hands to the screen.
 *
 * Only Werewolf, Seer and Bodyguard define `onGameEvent` and
 * `getActionOptions`; Witch, Hunter, Cupid, Villager and the Lovers
 * decorator define `handleGameEvent` and `getUiContext` instead, and
 * Villager has no `createAction`. The functions named `…AsWritten` record
 * what a call through the missing name does (a TypeError). The engine uses
 * the total versions, where a missing hook means "no reaction" or "no
 * action", and the screen reads `ScreenOptions`, where `getUiContext`
 * stands in for a missing `getActionOptions`.
 */
module RoleBehaviour {
  import opened Basics
  import opened Roles
  import opened Players
  import opened OrderedMaps
  import opened GameStates
  import opened Actions

  /** The `payload?: unknown` the screen passes to `createAction`. */
  datatype Payload =
    | JNull
    | JUndefined
    | JBool(b: bool)
    | JNum(n: int)
    | JStr(s: string)
    | JArr(items: seq<string>)
    | JObj(fields: map<string, string>)

  /** `typeof payload === 'object' && payload !== null`: arrays count too. */
  predicate IsObject(p: Payload)
  {
    p.JArr? || p.JObj?
  }

  /** The string under `key` when the payload is an object that has it. */
  function Prop(p: Payload, key: string): Option<string>
  {
    if p.JObj? && key in p.fields then Some(p.fields[key]) else None
  }

  /** The outcome of calling a method by name: its value, or a TypeError when the object lacks it. */
  datatype Call<T> = Done(value: T) | TypeError

  /** A Witch's two potion flags. */
  datatype PotionFlags = PotionFlags(heal: bool, poison: bool)

  /** The potion flags of the Witch a role is or wraps (both false for other roles). */
  function Flags(r: Role): PotionFlags
    reads Potions(r)
  {
    if WitchOf(r).Some? then PotionFlags(WitchOf(r).value.hasHealPotion, WitchOf(r).value.hasPoisonPotion)
    else PotionFlags(false, false)
  }

  /** The actions a (possibly absent) action list holds. */
  function Listed(acts: Option<seq<Action>>): seq<Action>
  {
    if acts.Some? then acts.value else []
  }

  /**
   * Witch.createAction on the potion flags: a truthy `healTarget` with the
   * heal potion left emits a heal and spends the potion, then a truthy
   * `poisonTarget` with the poison potion left emits a poison and spends
   * that one; no action at all gives null.
   */
  function WitchCreate(f: PotionFlags, p: Payload): (r: (Option<seq<Action>>, PotionFlags))
    ensures !IsObject(p) ==> r == (None, f)
    ensures r.0.Some? ==> |r.0.value| > 0
    ensures forall h :: Heal(h) in Listed(r.0) <==> f.heal && Prop(p, "healTarget") == Some(h) && Truthy(h)
    ensures forall x :: Poison(x) in Listed(r.0) <==> f.poison && Prop(p, "poisonTarget") == Some(x) && Truthy(x)
    ensures forall a :: a in Listed(r.0) ==> a.Heal? || a.Poison?
    ensures |Listed(r.0)| <= 2 && (|Listed(r.0)| == 2 ==> Listed(r.0)[0].Heal? && Listed(r.0)[1].Poison?)
    ensures r.1.heal == (f.heal && !(exists i :: 0 <= i < |Listed(r.0)| && Listed(r.0)[i].Heal?))
    ensures r.1.poison == (f.poison && !(exists i :: 0 <= i < |Listed(r.0)| && Listed(r.0)[i].Poison?))
  {
    if !IsObject(p) then (None, f)
    else
      var heal := Prop(p, "healTarget");
      var poison := Prop(p, "poisonTarget");
      var healing := TruthyId(heal) && f.heal;
      var poisoning := TruthyId(poison) && f.poison;
      var acts := (if healing then [Heal(heal.value)] else []) + (if poisoning then [Poison(poison.value)] else []);
      (if |acts| > 0 then Some(acts) else None, PotionFlags(f.heal && !healing, f.poison && !poisoning))
  }

  /**
   * `createAction(self, payload)` of each role, with Villager (which has no
   * such method) answering null, and the decorator delegating to the role
   * it wraps. Only the Witch changes the potion flags.
   */
  function CreateActionOf(r: Role, self: PlayerId, p: Payload, f: PotionFlags): (out: (Option<seq<Action>>, PotionFlags))
    ensures !r.WitchRole? && !r.LoverRole? ==> out.1 == f
    ensures out.0.None? ==> out.1 == f
    ensures out.0.Some? ==> |out.0.value| > 0
    ensures NoShoot(Listed(out.0))
  {
    match r
    case VillagerRole => (None, f)
    case WerewolfRole => (if p.JStr? then Some([Kill(p.s, self)]) else None, f)
    case SeerRole => (if p.JStr? then Some([See(p.s, self)]) else None, f)
    case BodyguardRole => (if p.JStr? && p.s != self then Some([Protect(p.s)]) else None, f)
    case WitchRole(_) => WitchCreate(f, p)
    case HunterRole => (if p.JStr? then Some([Kill(p.s, self)]) else None, f)
    case CupidRole => (if p.JArr? && |p.items| >= 2 then Some([Couple(p.items[0], p.items[1])]) else None, f)
    case LoverRole(w) => CreateActionOf(w, self, p, f)
  }

  /** `role.createAction(self, payload)` called by name, as the engine does. */
  function CreateActionAsWritten(r: Role, self: PlayerId, p: Payload, f: PotionFlags): Call<(Option<seq<Action>>, PotionFlags)>
  {
    if DefinesCreateAction(r) then Done(CreateActionOf(r, self, p, f)) else TypeError
  }

  /** Calling `createAction` fails exactly on a bare Villager; otherwise it is the total version. */
  lemma CreateActionThrowsOnlyForVillager(r: Role, self: PlayerId, p: Payload, f: PotionFlags)
    ensures CreateActionAsWritten(r, self, p, f).TypeError? <==> r == VillagerRole
    ensures r != VillagerRole ==> CreateActionAsWritten(r, self, p, f) == Done(CreateActionOf(r, self, p, f))
  {
  }

  /** A Villager, bare or decorated, never produces an action. */
  lemma {:induction false} VillagerNeverActs(r: Role, self: PlayerId, p: Payload, f: PotionFlags)
    requires r == VillagerRole || r == LoverRole(VillagerRole)
    ensures CreateActionOf(r, self, p, f) == (None, f)
  {
  }

  /** Only a Witch, bare or decorated, changes potion flags, and then only from true to false. */
  lemma {:induction false} PotionsNeverRefill(r: Role, self: PlayerId, p: Payload, f: PotionFlags)
    ensures var g := CreateActionOf(r, self, p, f).1; (g.heal ==> f.heal) && (g.poison ==> f.poison)
    ensures WitchOf(r).None? ==> CreateActionOf(r, self, p, f).1 == f
  {
    if r.LoverRole? {
      PotionsNeverRefill(r.wrapped, self, p, f);
    }
  }

  /** Werewolf and Hunter: any string is a target, killed by the role's holder. */
  lemma KillerRoles(r: Role, self: PlayerId, p: Payload, f: PotionFlags)
    requires r == WerewolfRole || r == HunterRole
    ensures p.JStr? ==> CreateActionOf(r, self, p, f).0 == Some([Kill(p.s, self)])
    ensures !p.JStr? ==> CreateActionOf(r, self, p, f).0 == None
  {
  }

  /** Seer: any string, self included, is read. */
  lemma SeerReads(self: PlayerId, p: Payload, f: PotionFlags)
    ensures CreateActionOf(SeerRole, self, p, f).0 == if p.JStr? then Some([See(p.s, self)]) else None
  {
  }

  /** Bodyguard: any string but the Bodyguard's own id is protected. */
  lemma BodyguardCannotProtectSelf(self: PlayerId, p: Payload, f: PotionFlags)
    ensures CreateActionOf(BodyguardRole, self, JStr(self), f).0 == None
    ensures p.JStr? && p.s != self ==> CreateActionOf(BodyguardRole, self, p, f).0 == Some([Protect(p.s)])
  {
  }

  /** Cupid: only an array of two or more ids; the first two are paired, equal or not. */
  lemma CupidNeedsArray(self: PlayerId, p: Payload, f: PotionFlags)
    ensures !(p.JArr? && |p.items| >= 2) <==> CreateActionOf(CupidRole, self, p, f).0 == None
    ensures p.JArr? && |p.items| >= 2 ==>
      CreateActionOf(CupidRole, self, p, f).0 == Some([Couple(p.items[0], p.items[1])])
  {
  }

  /** Decorating a role, any number of times, does not change what it creates. */
  lemma {:induction false} DecoratorDelegates(r: Role, self: PlayerId, p: Payload, f: PotionFlags)
    ensures CreateActionOf(Decorate(r), self, p, f) == CreateActionOf(r, self, p, f)
    ensures CreateActionOf(Decorate(Decorate(r)), self, p, f) == CreateActionOf(r, self, p, f)
  {
  }

  /** A Witch's calls in turn, with the potions carried from one call to the next. */
  function WitchRun(f: PotionFlags, ps: seq<Payload>): (r: (seq<Action>, PotionFlags))
    decreases |ps|
  {
    if |ps| == 0 then ([], f)
    else
      var step := WitchCreate(f, ps[0]);
      var rest := WitchRun(step.1, ps[1..]);
      (Listed(step.0) + rest.0, rest.1)
  }

  function CountHeals(acts: seq<Action>): nat
  {
    if |acts| == 0 then 0 else (if acts[0].Heal? then 1 else 0) + CountHeals(acts[1..])
  }

  function CountPoisons(acts: seq<Action>): nat
  {
    if |acts| == 0 then 0 else (if acts[0].Poison? then 1 else 0) + CountPoisons(acts[1..])
  }

  lemma {:induction false} CountsAppend(a: seq<Action>, b: seq<Action>)
    ensures CountHeals(a + b) == CountHeals(a) + CountHeals(b)
    ensures CountPoisons(a + b) == CountPoisons(a) + CountPoisons(b)
  {
    if |a| > 0 {
      assert (a + b)[0] == a[0];
      assert (a + b)[1..] == a[1..] + b;
      CountsAppend(a[1..], b);
    } else {
      assert a + b == b;
    }
  }

  /**
   * However many times the game master submits for the Witch, she heals at
   * most once and poisons at most once, and only with potions she had.
   */
  lemma {:induction false} WitchUsesEachPotionOnce(f: PotionFlags, ps: seq<Payload>)
    decreases |ps|
    ensures CountHeals(WitchRun(f, ps).0) <= (if f.heal then 1 else 0)
    ensures CountPoisons(WitchRun(f, ps).0) <= (if f.poison then 1 else 0)
    ensures CountHeals(WitchRun(f, ps).0) + (if WitchRun(f, ps).1.heal then 1 else 0) == (if f.heal then 1 else 0)
    ensures CountPoisons(WitchRun(f, ps).0) + (if WitchRun(f, ps).1.poison then 1 else 0) == (if f.poison then 1 else 0)
  {
    if |ps| > 0 {
      var step := WitchCreate(f, ps[0]);
      var acts := Listed(step.0);
      WitchUsesEachPotionOnce(step.1, ps[1..]);
      CountsAppend(acts, WitchRun(step.1, ps[1..]).0);
      assert CountHeals(acts) == (if exists i :: 0 <= i < |acts| && acts[i].Heal? then 1 else 0) by {
        if |acts| == 2 {
          assert acts[1..][1..] == [];
        } else if |acts| == 1 {
          assert acts[1..] == [];
        }
      }
      assert CountPoisons(acts) == (if exists i :: 0 <= i < |acts| && acts[i].Poison? then 1 else 0) by {
        if |acts| == 2 {
          assert acts[1..][1..] == [];
        } else if |acts| == 1 {
          assert acts[1..] == [];
        }
      }
    }
  }

  /**
   * The role's `createAction` on the role objects: builds the command
   * objects, and a Witch (or a decorated Witch) spends her potions.
   */
  method CreateAction(r: Role, self: Player, p: Payload) returns (cmds: Option<seq<Command>>)
    modifies Potions(r)
    ensures var out := CreateActionOf(r, self.id, p, old(Flags(r)));
      (cmds.Some? <==> out.0.Some?) && Flags(r) == out.1
    ensures cmds.Some? ==> Commanded(cmds.value, CreateActionOf(r, self.id, p, old(Flags(r))).0.value)
    ensures cmds.Some? ==> forall i :: 0 <= i < |cmds.value| ==> fresh(cmds.value[i])
    decreases r
  {
    match r
    case VillagerRole =>
      cmds := None;
    case WitchRole(w) =>
      if !IsObject(p) {
        return None;
      }
      var heal := Prop(p, "healTarget");
      var poison := Prop(p, "poisonTarget");
      var acts: seq<Action> := [];
      if TruthyId(heal) && w.hasHealPotion {
        w.hasHealPotion := false;
        acts := acts + [Heal(heal.value)];
      }
      if TruthyId(poison) && w.hasPoisonPotion {
        w.hasPoisonPotion := false;
        acts := acts + [Poison(poison.value)];
      }
      if |acts| > 0 {
        var made := Instantiate(acts);
        cmds := Some(made);
      } else {
        cmds := None;
      }
    case LoverRole(wrapped) =>
      cmds := CreateAction(wrapped, self, p);
    case _ =>
      var out := CreateActionOf(r, self.id, p, Flags(r));
      if out.0.Some? {
        var made := Instantiate(out.0.value);
        cmds := Some(made);
      } else {
        cmds := None;
      }
  }

  /** Distinct commands carrying exactly the given actions, in order. */
  predicate Carries(cmds: seq<Command>, acts: seq<Action>)
  {
    |cmds| == |acts| &&
    (forall i :: 0 <= i < |cmds| ==> cmds[i].action == acts[i]) &&
    (forall i, j :: 0 <= i < j < |cmds| ==> cmds[i] != cmds[j])
  }

  /** The commands carry exactly the given actions, in order, none executed yet. */
  ghost predicate Commanded(cmds: seq<Command>, acts: seq<Action>)
    reads set i | 0 <= i < |cmds| :: cmds[i]
  {
    Carries(cmds, acts) &&
    forall i :: 0 <= i < |cmds| ==> cmds[i].previous.None? && cmds[i].Valid()
  }

  /** `new KillAction(…)` and its siblings, one per action. */
  method Instantiate(acts: seq<Action>) returns (cmds: seq<Command>)
    ensures Commanded(cmds, acts)
    ensures forall i :: 0 <= i < |cmds| ==> fresh(cmds[i])
  {
    cmds := [];
    for n := 0 to |acts|
      invariant Commanded(cmds, acts[..n])
      invariant forall i :: 0 <= i < |cmds| ==> fresh(cmds[i])
    {
      var c := new Command(acts[n]);
      cmds := cmds + [c];
    }
  }

  // ---- reactions to game events ----

  /** The events the engine broadcasts, with players named by id. */
  datatype GameEvent =
    | GameStarted(playerCount: nat)
    | PhaseChanged(newPhase: GamePhase, day: int)
    | PlayerDied(player: PlayerId, cause: DeathCause)
    | ActionSubmitted(actingRoleName: string, actionTypes: ActionTypes)
    | ActionUndone(actionType: string)

  datatype DeathCause = Killed | VotedOut | Poisoned | Shot

  /**
   * The `actionType` of ACTION_SUBMITTED, typed `string | string[]`: an
   * immediate action sends its one type name, a group action the list of
   * the names of all its actions.
   */
  datatype ActionTypes = OneType(name: string) | TypeList(names: seq<string>)

  /**
   * `onGameEvent` of the roles that define it: Werewolf, Seer and Bodyguard
   * all answer null, whatever the event. `handleGameEvent`, defined by the
   * others, answers null too, so a missing hook is read as no reaction.
   */
  function OnGameEvent(r: Role, e: GameEvent): (acts: Option<seq<Action>>)
    ensures acts.None?
  {
    None
  }

  /** `role.onGameEvent(…)` called by name, as the engine's broadcast does. */
  function OnGameEventAsWritten(r: Role, e: GameEvent): (c: Call<Option<seq<Action>>>)
  {
    if DefinesOnGameEvent(r) then Done(None) else TypeError
  }

  /** The call fails for every role but Werewolf, Seer and Bodyguard; decorated roles included. */
  lemma OnGameEventAsWrittenFails(r: Role, e: GameEvent)
    ensures OnGameEventAsWritten(r, e).TypeError? <==>
      r.VillagerRole? || r.WitchRole? || r.HunterRole? || r.CupidRole? || r.LoverRole?
    ensures OnGameEventAsWritten(r, e).Done? ==> OnGameEventAsWritten(r, e).value == OnGameEvent(r, e)
  {
  }

  // ---- options for the game master's screen ----

  datatype Reason = CannotKillPackmate

  /** One entry of `availableTargets`: `{ id, name }`, with `isValid` and `reason` for the Werewolf. */
  datatype Target = Target(id: PlayerId, name: string, isValid: Field<bool>, reason: Field<Reason>)

  datatype HealTarget = HealTarget(id: PlayerId, name: string)

  /**
   * The options record a role returns. Each key may be missing; the Witch's
   * `canHeal` is kept as its truthiness.
   */
  datatype ActionOptions = ActionOptions(
    canAct: Field<bool>,
    availableTargets: Field<seq<Target>>,
    requiresTargetCount: Field<int>,
    canShoot: Field<bool>,
    canHeal: Field<bool>,
    healTarget: Field<Option<HealTarget>>,
    canPoison: Field<bool>,
    poisonTargets: Field<seq<Target>>)

  /** `{}`. */
  const EmptyOptions := ActionOptions(Absent, Absent, Absent, Absent, Absent, Absent, Absent, Absent)

  /** `players.filter(p => p.id !== selfId)`. */
  function Others(ps: seq<PlayerRec>, self: PlayerId): (r: seq<PlayerRec>)
    ensures |r| <= |ps|
    ensures forall i :: 0 <= i < |r| ==> r[i] in ps && r[i].id != self
    ensures forall i :: 0 <= i < |ps| && ps[i].id != self ==> ps[i] in r
  {
    if |ps| == 0 then []
    else if ps[0].id != self then [ps[0]] + Others(ps[1..], self)
    else Others(ps[1..], self)
  }

  /**
   * The filter keeps the players in list order: a single player is kept
   * exactly when its id is not `self`, and the filter distributes over
   * concatenation.
   */
  lemma {:induction false} OthersAppend(a: seq<PlayerRec>, b: seq<PlayerRec>, self: PlayerId)
    ensures Others(a + b, self) == Others(a, self) + Others(b, self)
    ensures |a| == 1 ==> Others(a, self) == (if a[0].id != self then a else [])
  {
    if |a| == 0 {
      assert a + b == b;
    } else {
      assert (a + b)[0] == a[0] && (a + b)[1..] == a[1..] + b;
      OthersAppend(a[1..], b, self);
      if |a| == 1 {
        assert a[1..] == [];
      }
    }
  }

  /** `.map(p => ({ id: p.id, name: p.name }))`. */
  function Plain(ps: seq<PlayerRec>): (ts: seq<Target>)
    ensures |ts| == |ps|
  {
    seq(|ps|, i requires 0 <= i < |ps| => Target(ps[i].id, ps[i].name, Absent, Absent))
  }

  /** `p.role?.faction === Faction.Werewolf`. */
  predicate IsWolf(p: PlayerRec)
  {
    p.role.Some? && FactionOf(p.role.value) == Werewolf
  }

  /** Werewolf.getActionOptions' targets: packmates are listed but marked invalid, with a reason. */
  function WolfTargets(ps: seq<PlayerRec>): (ts: seq<Target>)
    ensures |ts| == |ps|
  {
    seq(|ps|, i requires 0 <= i < |ps| =>
      Target(ps[i].id, ps[i].name, Given(!IsWolf(ps[i])),
             if IsWolf(ps[i]) then Given(CannotKillPackmate) else Undefined))
  }

  /** `getActionOptions`, for the three roles that define it (None: no such method). */
  function ActionOptionsOf(r: Role, s: State, self: PlayerRec): (o: Option<ActionOptions>)
    ensures o.Some? <==> DefinesActionOptions(r)
  {
    var others := Others(Living(s.players), self.id);
    match r
    case WerewolfRole => Some(EmptyOptions.(availableTargets := Given(WolfTargets(others))))
    case SeerRole => Some(EmptyOptions.(availableTargets := Given(Plain(others))))
    case BodyguardRole => Some(EmptyOptions.(availableTargets := Given(Plain(others))))
    case _ => None
  }

  /**
   * `role.getActionOptions(gameState, self)` called by name, as the game
   * hook, the first-night card and the Hunter's form all do.
   */
  function ActionOptionsAsWritten(r: Role, s: State, self: PlayerRec): Call<ActionOptions>
  {
    if DefinesActionOptions(r) then Done(ActionOptionsOf(r, s, self).value) else TypeError
  }

  /**
   * The call fails for every role but Werewolf, Seer and Bodyguard, decorated
   * roles included, since the decorator forwards only `getUiContext`.
   */
  lemma ActionOptionsAsWrittenFails(r: Role, s: State, self: PlayerRec)
    ensures ActionOptionsAsWritten(r, s, self).TypeError? <==>
      r.VillagerRole? || r.WitchRole? || r.HunterRole? || r.CupidRole? || r.LoverRole?
    ensures ActionOptionsAsWritten(r, s, self).Done? ==>
      Some(ActionOptionsAsWritten(r, s, self).value) == ActionOptionsOf(r, s, self)
  {
  }

  /**
   * The Witch's heal candidate: the first key of the night's kills, when it
   * is truthy and names a player.
   */
  function KilledPlayer(s: State): (k: Option<nat>)
    ensures k.Some? ==> k.value < |s.players| && |s.nightlyKills| > 0 &&
                        s.players[k.value].id == s.nightlyKills[0].0
  {
    if |s.nightlyKills| == 0 || !Truthy(s.nightlyKills[0].0) then None
    else Find(s.players, s.nightlyKills[0].0)
  }

  /**
   * `getUiContext`, for the roles that define it (the decorator delegating);
   * None where the role has no such method. `f` is the Witch's potions.
   */
  function UiContextOf(r: Role, s: State, self: PlayerRec, f: PotionFlags): (o: Option<ActionOptions>)
    ensures o.Some? <==> DefinesUiContext(r)
  {
    var living := Living(s.players);
    match r
    case WitchRole(_) =>
      var k := KilledPlayer(s);
      Some(EmptyOptions.(
        canHeal := Given(f.heal && k.Some?),
        healTarget := Given(if k.Some? then Some(HealTarget(s.players[k.value].id, s.players[k.value].name)) else None),
        canPoison := Given(f.poison),
        poisonTargets := Given(Plain(Others(living, self.id)))))
    case HunterRole =>
      Some(EmptyOptions.(canShoot := Given(!self.isAlive), availableTargets := Given(Plain(living))))
    case CupidRole =>
      if s.dayNumber != 1 then Some(EmptyOptions.(canAct := Given(false), availableTargets := Given([])))
      else Some(EmptyOptions.(canAct := Given(true), availableTargets := Given(Plain(living))))
    case VillagerRole => Some(EmptyOptions)
    case LoverRole(w) => UiContextOf(w, s, self, f)
    case _ => None
  }

  /**
   * The options record the screen evidently means to read: `getActionOptions`
   * where the role defines it, `getUiContext` where it defines that one
   * instead, and for a decorated role the record of the role it wraps.
   */
  function ScreenOptions(r: Role, s: State, self: PlayerRec, f: PotionFlags): (o: ActionOptions)
    ensures DefinesActionOptions(r) ==> ActionOptionsOf(r, s, self) == Some(o)
    ensures DefinesUiContext(r) ==> UiContextOf(r, s, self, f) == Some(o)
    ensures r.LoverRole? ==> o == ScreenOptions(r.wrapped, s, self, f)
  {
    match r
    case LoverRole(w) => ScreenOptions(w, s, self, f)
    case WerewolfRole => ActionOptionsOf(r, s, self).value
    case SeerRole => ActionOptionsOf(r, s, self).value
    case BodyguardRole => ActionOptionsOf(r, s, self).value
    case _ => UiContextOf(r, s, self, f).value
  }

  /** The ids of a target list. */
  function TargetIds(ts: seq<Target>): (ids: seq<PlayerId>)
    ensures |ids| == |ts|
  {
    seq(|ts|, i requires 0 <= i < |ts| => ts[i].id)
  }

  /** The living players other than `self`, by id: exactly the living seats with another id. */
  lemma OthersLivingIds(ps: seq<PlayerRec>, self: PlayerId)
    ensures forall t :: t in IdsOf(Others(Living(ps), self)) <==>
      exists k :: 0 <= k < |ps| && ps[k].isAlive && ps[k].id == t && t != self
  {
    var others := Others(Living(ps), self);
    forall t
      ensures t in IdsOf(others) <==> exists k :: 0 <= k < |ps| && ps[k].isAlive && ps[k].id == t && t != self
    {
      if t in IdsOf(others) {
        var i :| 0 <= i < |others| && IdsOf(others)[i] == t;
        assert others[i] in Living(ps);
        var k :| 0 <= k < |ps| && ps[k] == others[i];
      }
      if exists k :: 0 <= k < |ps| && ps[k].isAlive && ps[k].id == t && t != self {
        var k :| 0 <= k < |ps| && ps[k].isAlive && ps[k].id == t && t != self;
        assert ps[k] in Living(ps);
        var j :| 0 <= j < |Living(ps)| && Living(ps)[j] == ps[k];
        assert ps[k] in others;
        var i :| 0 <= i < |others| && others[i] == ps[k];
        assert IdsOf(others)[i] == t;
      }
    }
  }

  /**
   * Werewolf, Seer and Bodyguard are offered exactly the living players other
   * than themselves, in seating order; the Werewolf sees packmates marked
   * invalid with a reason, and everyone else marked valid.
   */
  lemma NightTargets(r: Role, s: State, self: PlayerRec)
    requires DefinesActionOptions(r)
    ensures var ts := ActionOptionsOf(r, s, self).value.availableTargets;
      ts.Given? && TargetIds(ts.value) == IdsOf(Others(Living(s.players), self.id))
    ensures forall t :: t in TargetIds(ActionOptionsOf(r, s, self).value.availableTargets.value) <==>
      exists k :: 0 <= k < |s.players| && s.players[k].isAlive && s.players[k].id == t && t != self.id
    ensures r == WerewolfRole ==> var ts := ActionOptionsOf(r, s, self).value.availableTargets.value;
      forall i :: 0 <= i < |ts| ==>
        (ts[i].isValid == Given(false) <==> IsWolf(Others(Living(s.players), self.id)[i])) &&
        (ts[i].reason.Given? <==> ts[i].isValid == Given(false))
  {
    var ts := ActionOptionsOf(r, s, self).value.availableTargets.value;
    assert TargetIds(ts) == IdsOf(Others(Living(s.players), self.id));
    OthersLivingIds(s.players, self.id);
  }

  /**
   * The Witch may heal exactly when a potion remains and the night's first
   * kill names a player; she may poison any living player but herself.
   */
  lemma WitchOptions(w: Witch, s: State, self: PlayerRec, f: PotionFlags)
    ensures var o := UiContextOf(WitchRole(w), s, self, f).value;
      o.canHeal == Given(f.heal && |s.nightlyKills| > 0 && Truthy(s.nightlyKills[0].0) &&
                         exists i :: 0 <= i < |s.players| && s.players[i].id == s.nightlyKills[0].0) &&
      o.canPoison == Given(f.poison) &&
      o.poisonTargets == Given(Plain(Others(Living(s.players), self.id))) &&
      o.availableTargets.Absent? && o.canAct.Absent? && o.canShoot.Absent?
  {
  }

  /** The Hunter may shoot exactly when dead, at any living player. */
  lemma HunterOptions(s: State, self: PlayerRec)
    ensures var o := UiContextOf(HunterRole, s, self, PotionFlags(false, false)).value;
      o.canShoot == Given(!self.isAlive) && o.availableTargets == Given(Plain(Living(s.players))) &&
      o.canAct.Absent?
  {
  }

  /** Cupid may act on day 1 only; on other days nobody is offered. */
  lemma CupidOptions(s: State, self: PlayerRec)
    ensures var o := UiContextOf(CupidRole, s, self, PotionFlags(false, false)).value;
      (o.canAct == Given(true) <==> s.dayNumber == 1) &&
      (s.dayNumber != 1 ==> o.availableTargets == Given([])) &&
      (s.dayNumber == 1 ==> o.availableTargets == Given(Plain(Living(s.players))))
  {
  }

  /** The decorator answers `getUiContext` exactly as the role it wraps. */
  lemma {:induction false} DecoratedUiContext(r: Role, s: State, self: PlayerRec, f: PotionFlags)
    ensures UiContextOf(Decorate(r), s, self, f) == UiContextOf(r, s, self, f)
    ensures DefinesUiContext(Decorate(r)) == DefinesUiContext(r)
  {
  }
}
