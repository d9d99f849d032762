/**
 * The roles a player can hold: the seven base roles of the role map, the
 * Witch's per-instance potion state, and the Lovers decorator that Cupid
 * wraps around a role. What each role does (its actions and its options for
 * the game master's screen) is in module RoleBehaviour.
 */
module Roles {
  import opened Basics

  /**
   * A Witch role instance. Each instance owns its two single-use potions;
   * a Lovers decorator around a Witch shares the wrapped instance.
   */
  class Witch {
    var hasHealPotion: bool
    var hasPoisonPotion: bool

    constructor ()
      ensures hasHealPotion && hasPoisonPotion
    {
      hasHealPotion := true;
      hasPoisonPotion := true;
    }
  }

  datatype Role =
    | VillagerRole
    | WerewolfRole
    | SeerRole
    | BodyguardRole
    | WitchRole(witch: Witch)
    | HunterRole
    | CupidRole
    | LoverRole(wrapped: Role)

  /** The role's name; the decorator reports the wrapped role's name. */
  function Name(r: Role): string
  {
    match r
    case VillagerRole => "Villager"
    case WerewolfRole => "Werewolf"
    case SeerRole => "Seer"
    case BodyguardRole => "Bodyguard"
    case WitchRole(_) => "Witch"
    case HunterRole => "Hunter"
    case CupidRole => "Cupid"
    case LoverRole(w) => Name(w)
  }

  /** The role's faction; the decorator overrides it with Lovers. */
  function FactionOf(r: Role): Faction
  {
    match r
    case WerewolfRole => Werewolf
    case LoverRole(_) => Lovers
    case _ => Villager
  }

  /** The Witch instance a role is, or wraps. */
  function WitchOf(r: Role): Option<Witch>
  {
    match r
    case WitchRole(w) => Some(w)
    case LoverRole(w) => WitchOf(w)
    case _ => None
  }

  /** The objects a role's behaviour may read or update. */
  function Potions(r: Role): set<Witch>
  {
    if WitchOf(r).Some? then {WitchOf(r).value} else {}
  }

  /** The names of the RoleName enumeration. */
  const RoleNames: set<string> :=
    {"Villager", "Werewolf", "Seer", "Bodyguard", "Witch", "Hunter", "Cupid"}

  /** The keys of the role map, in its insertion order. */
  const RoleMapKeys: seq<string> :=
    ["Bodyguard", "Cupid", "Hunter", "Seer", "Villager", "Witch", "Werewolf"]

  predicate Undecorated(r: Role)
  {
    !r.LoverRole?
  }

  /** `new LoverRoleDecorator(r)`. */
  function Decorate(r: Role): (d: Role)
    ensures Name(d) == Name(r)
    ensures FactionOf(d) == Lovers
    ensures WitchOf(d) == WitchOf(r)
  {
    LoverRole(r)
  }

  /**
   * The role map has one entry per role name, with no repeated key, so a
   * lookup by any RoleName value succeeds and finds exactly one factory.
   */
  lemma RoleMapKeysAreRoleNames()
    ensures |RoleMapKeys| == |RoleNames| == 7
    ensures forall k :: k in RoleMapKeys <==> k in RoleNames
    ensures forall i, j :: 0 <= i < j < |RoleMapKeys| ==> RoleMapKeys[i] != RoleMapKeys[j]
  {
  }

  /**
   * The factory stored under `name` in the role map: a new role instance
   * whose name is the key; a Witch comes with both potions.
   */
  method MakeRole(name: string) returns (r: Role)
    requires name in RoleMapKeys
    ensures Name(r) == name && Undecorated(r)
    ensures FactionOf(r) == (if name == "Werewolf" then Werewolf else Villager)
    ensures r.WitchRole? ==> fresh(r.witch) && r.witch.hasHealPotion && r.witch.hasPoisonPotion
  {
    if name == "Bodyguard" {
      r := BodyguardRole;
    } else if name == "Cupid" {
      r := CupidRole;
    } else if name == "Hunter" {
      r := HunterRole;
    } else if name == "Seer" {
      r := SeerRole;
    } else if name == "Villager" {
      r := VillagerRole;
    } else if name == "Witch" {
      var w := new Witch();
      r := WitchRole(w);
    } else {
      r := WerewolfRole;
    }
  }

  /** Only the Werewolf is in the Werewolf faction before Cupid's decoration. */
  lemma UndecoratedFaction(r: Role)
    requires Undecorated(r)
    ensures FactionOf(r) == Werewolf <==> Name(r) == "Werewolf"
    ensures FactionOf(r) != Lovers && FactionOf(r) != Solo
  {
  }

  /** However deep the decoration, the name is the innermost role's name. */
  lemma {:induction false} NameOfDecorated(r: Role)
    ensures Name(r) in RoleNames
    ensures r.LoverRole? ==> Name(r) == Name(r.wrapped) && FactionOf(r) == Lovers
  {
    if r.LoverRole? {
      NameOfDecorated(r.wrapped);
    }
  }

  // The hooks each role class defines, as written. The engine calls
  // `onGameEvent` on every living role and `createAction` on the acting
  // role; the screen calls `getActionOptions` or `getUiContext`.

  /** Whether the role class defines a method named `onGameEvent`. */
  predicate DefinesOnGameEvent(r: Role)
  {
    r.WerewolfRole? || r.SeerRole? || r.BodyguardRole?
  }

  /** Whether the role class (or the decorator, by delegation) has `createAction`. */
  predicate DefinesCreateAction(r: Role)
  {
    !r.VillagerRole?
  }

  /** Whether the role class defines `getActionOptions`. */
  predicate DefinesActionOptions(r: Role)
  {
    r.WerewolfRole? || r.SeerRole? || r.BodyguardRole?
  }

  /** Whether calling `getUiContext` on the role reaches a definition. */
  predicate DefinesUiContext(r: Role)
  {
    match r
    case WitchRole(_) => true
    case HunterRole => true
    case CupidRole => true
    case VillagerRole => true
    case LoverRole(w) => DefinesUiContext(w)
    case _ => false
  }
}
