/**
 * The suggested role setups offered on the setup page, keyed by player
 * count, and the lookup `getSuggestedRoleSetups`. A setup gives a number of
 * copies per role name; the setup page adopts the first suggestion and
 * accepts a configuration only when the role counts add up to the player
 * count.
 */
module RoleSuggestions {
  import opened Basics
  import opened OrderedMaps
  import opened Roles

  /** Role name to number of copies, in the order the setup literal lists them. */
  type RoleSetup = Entries<string, nat>

  /** One suggestion; its display name and description are not modelled. */
  datatype SuggestedSetup = SuggestedSetup(setup: RoleSetup)

  // ---- the `suggestions` table, one constant per player count ----

  const For6: seq<SuggestedSetup> := [
    SuggestedSetup([("Werewolf", 1), ("Seer", 1), ("Villager", 4)])
  ]
  const For7: seq<SuggestedSetup> := [
    SuggestedSetup([("Werewolf", 2), ("Seer", 1), ("Villager", 4)])
  ]
  const For8: seq<SuggestedSetup> := [
    SuggestedSetup([("Werewolf", 2), ("Seer", 1), ("Bodyguard", 1), ("Villager", 4)]),
    SuggestedSetup([("Werewolf", 2), ("Seer", 1), ("Witch", 1), ("Villager", 4)])
  ]
  const For9: seq<SuggestedSetup> := [
    SuggestedSetup([("Werewolf", 2), ("Seer", 1), ("Bodyguard", 1), ("Witch", 1), ("Villager", 4)])
  ]
  const For10: seq<SuggestedSetup> := [
    SuggestedSetup([("Werewolf", 3), ("Seer", 1), ("Bodyguard", 1), ("Witch", 1), ("Hunter", 1), ("Villager", 3)]),
    SuggestedSetup([("Werewolf", 2), ("Seer", 1), ("Witch", 1), ("Cupid", 1), ("Villager", 5)])
  ]
  const For11: seq<SuggestedSetup> := [
    SuggestedSetup([("Werewolf", 3), ("Seer", 1), ("Bodyguard", 1), ("Witch", 1), ("Villager", 5)])
  ]
  const For12: seq<SuggestedSetup> := [
    SuggestedSetup([("Werewolf", 3), ("Seer", 1), ("Bodyguard", 1), ("Witch", 1), ("Hunter", 1), ("Cupid", 1), ("Villager", 4)])
  ]
  const For13: seq<SuggestedSetup> := [
    SuggestedSetup([("Werewolf", 3), ("Seer", 1), ("Bodyguard", 1), ("Witch", 1), ("Hunter", 1), ("Cupid", 1), ("Villager", 5)])
  ]
  const For14: seq<SuggestedSetup> := [
    SuggestedSetup([("Werewolf", 4), ("Seer", 1), ("Bodyguard", 1), ("Witch", 1), ("Hunter", 1), ("Villager", 6)])
  ]
  const For15: seq<SuggestedSetup> := [
    SuggestedSetup([("Werewolf", 4), ("Seer", 1), ("Bodyguard", 1), ("Witch", 1), ("Hunter", 1), ("Cupid", 1), ("Villager", 6)])
  ]
  const For16: seq<SuggestedSetup> := [
    SuggestedSetup([("Werewolf", 4), ("Seer", 1), ("Bodyguard", 1), ("Witch", 1), ("Hunter", 1), ("Cupid", 1), ("Villager", 7)])
  ]

  /** The `suggestions` table. */
  const Suggestions: map<int, seq<SuggestedSetup>> := map[
    6 := For6,
    7 := For7,
    8 := For8,
    9 := For9,
    10 := For10,
    11 := For11,
    12 := For12,
    13 := For13,
    14 := For14,
    15 := For15,
    16 := For16
  ]

  /** `getSuggestedRoleSetups`: the table's entry for the count, or no suggestion. */
  function GetSuggestedRoleSetups(playerCount: int): (r: seq<SuggestedSetup>)
    ensures playerCount !in Suggestions ==> r == []
  {
    if playerCount in Suggestions then Suggestions[playerCount] else []
  }

  /** The sum of a setup's counts, as the setup page's validity check adds them up. */
  function Total(setup: RoleSetup): nat
  {
    if |setup| == 0 then 0 else setup[0].1 + Total(setup[1..])
  }

  /** The number of copies of a role, 0 when the setup does not list it. */
  function CountOf(setup: RoleSetup, name: string): (c: nat)
    ensures c > 0 ==> name in Keys(setup)
  {
    var g := Get(setup, name);
    if g.Some? then g.value else 0
  }

  /** A setup the game can be started from: each role named at most once, and only the seven role names. */
  predicate WellKeyed(setup: RoleSetup)
  {
    UniqueKeys(setup) && forall i :: 0 <= i < |setup| ==> setup[i].0 in RoleNames
  }

  /**
   * A suggestion the setup page can adopt for `playerCount` players: each
   * role named once, the counts adding up to the player count, at least one
   * Werewolf and exactly one Seer.
   */
  predicate Fits(s: SuggestedSetup, playerCount: int)
  {
    WellKeyed(s.setup) && Total(s.setup) == playerCount &&
    CountOf(s.setup, "Werewolf") >= 1 && CountOf(s.setup, "Seer") == 1
  }

  /** Suggestions exist for exactly the counts 6 to 16. */
  lemma SuggestedCounts(playerCount: int)
    ensures GetSuggestedRoleSetups(playerCount) != [] <==> 6 <= playerCount <= 16
  {
    if 6 <= playerCount <= 16 {
      assert playerCount in Suggestions;
    }
  }

  lemma Fit6()
    ensures forall s :: s in For6 ==> Fits(s, 6)
  {
  }

  lemma Fit7()
    ensures forall s :: s in For7 ==> Fits(s, 7)
  {
  }

  lemma Fit8()
    ensures forall s :: s in For8 ==> Fits(s, 8)
  {
  }

  lemma Fit9()
    ensures forall s :: s in For9 ==> Fits(s, 9)
  {
  }

  lemma Fit10()
    ensures forall s :: s in For10 ==> Fits(s, 10)
  {
  }

  lemma Fit11()
    ensures forall s :: s in For11 ==> Fits(s, 11)
  {
  }

  lemma Fit12()
    ensures forall s :: s in For12 ==> Fits(s, 12)
  {
  }

  lemma Fit13()
    ensures forall s :: s in For13 ==> Fits(s, 13)
  {
  }

  lemma Fit14()
    ensures forall s :: s in For14 ==> Fits(s, 14)
  {
  }

  lemma Fit15()
    ensures forall s :: s in For15 ==> Fits(s, 15)
  {
  }

  lemma Fit16()
    ensures forall s :: s in For16 ==> Fits(s, 16)
  {
  }

  /**
   * Every suggestion for a count can be adopted for that count: see `Fits`.
   */
  lemma {:induction false} SuggestionsFit(playerCount: int)
    ensures forall s :: s in GetSuggestedRoleSetups(playerCount) ==> Fits(s, playerCount)
  {
    match playerCount
    case 6 => Fit6();
    case 7 => Fit7();
    case 8 => Fit8();
    case 9 => Fit9();
    case 10 => Fit10();
    case 11 => Fit11();
    case 12 => Fit12();
    case 13 => Fit13();
    case 14 => Fit14();
    case 15 => Fit15();
    case 16 => Fit16();
    case _ =>
  }

  /**
   * The setup page's reaction to a new player count: nothing for a count of
   * 0 or less; otherwise the first suggestion's role counts, or no roles at
   * all when there is no suggestion.
   */
  function AdoptedRoles(playerCount: int): (r: Option<RoleSetup>)
  {
    if playerCount <= 0 then None
    else
      var suggestions := GetSuggestedRoleSetups(playerCount);
      if |suggestions| > 0 then Some(suggestions[0].setup) else Some([])
  }

  /** The role part of the setup page's validity check: the counts add up to the player count. */
  predicate RolesAddUp(roles: RoleSetup, playerCount: int)
  {
    Total(roles) == playerCount
  }

  /**
   * The adopted roles pass the role count check exactly for the counts
   * that have suggestions; any other positive count starts with no roles.
   */
  lemma {:induction false} AdoptedRolesAddUp(playerCount: int)
    ensures AdoptedRoles(playerCount).None? <==> playerCount <= 0
    ensures AdoptedRoles(playerCount).Some? ==>
      (RolesAddUp(AdoptedRoles(playerCount).value, playerCount) <==> 6 <= playerCount <= 16)
    ensures AdoptedRoles(playerCount).Some? && !(6 <= playerCount <= 16) ==> AdoptedRoles(playerCount).value == []
  {
    SuggestedCounts(playerCount);
    SuggestionsFit(playerCount);
    if 6 <= playerCount <= 16 {
      assert GetSuggestedRoleSetups(playerCount)[0] in GetSuggestedRoleSetups(playerCount);
    }
  }
}
