/**
 * The standard rule set: who has won, checked in a fixed priority over the
 * living players (the Lovers pair, then the Werewolves, then the
 * Villagers), and the order in which roles are called at night.
 */
module Rules {
  import opened Basics
  import opened Roles
  import opened Players
  import opened GameStates

  /** `p.role?.faction === f`. */
  predicate HasFaction(p: PlayerRec, f: Faction)
  {
    p.role.Some? && FactionOf(p.role.value) == f
  }

  /** `p.lover !== null`. */
  predicate HasLover(p: PlayerRec)
  {
    p.lover.Some?
  }

  /** The length of `ps.filter(p => p.role?.faction === f && (p.lover === null || !single))`. */
  function CountFaction(ps: seq<PlayerRec>, f: Faction, single: bool): (n: nat)
    ensures n <= |ps|
    ensures n == 0 <==> forall i :: 0 <= i < |ps| ==> !(HasFaction(ps[i], f) && (single ==> !HasLover(ps[i])))
  {
    if |ps| == 0 then 0
    else
      var rest := CountFaction(ps[1..], f, single);
      assert forall i :: 1 <= i < |ps| ==> ps[i] == ps[1..][i - 1];
      (if HasFaction(ps[0], f) && (single ==> !HasLover(ps[0])) then 1 else 0) + rest
  }

  /**
   * Counting adds up over a split of the list, and a single player counts
   * once exactly when it has the faction (and, when asked, no lover).
   */
  lemma {:induction false} CountFactionAppend(a: seq<PlayerRec>, b: seq<PlayerRec>, f: Faction, single: bool)
    ensures CountFaction(a + b, f, single) == CountFaction(a, f, single) + CountFaction(b, f, single)
    ensures |a| == 1 ==> CountFaction(a, f, single) == if HasFaction(a[0], f) && (single ==> !HasLover(a[0])) then 1 else 0
  {
    if |a| == 0 {
      assert a + b == b;
    } else {
      assert (a + b)[0] == a[0] && (a + b)[1..] == a[1..] + b;
      CountFactionAppend(a[1..], b, f, single);
      if |a| == 1 {
        assert a[1..] == [];
      }
    }
  }

  /** The length of `ps.filter(p => p.lover !== null)`. */
  function CountLovers(ps: seq<PlayerRec>): (n: nat)
    ensures n <= |ps|
    ensures n == |ps| <==> forall i :: 0 <= i < |ps| ==> HasLover(ps[i])
  {
    if |ps| == 0 then 0
    else
      var rest := CountLovers(ps[1..]);
      assert forall i :: 1 <= i < |ps| ==> ps[i] == ps[1..][i - 1];
      (if HasLover(ps[0]) then 1 else 0) + rest
  }

  /**
   * StandardRuleSet.checkWinConditions: nobody wins when everyone is dead;
   * two living players who both have a lover win for the Lovers; the
   * Werewolves win when their living members without a lover strictly
   * outnumber the Villager-faction members without a lover; the Villagers
   * win when no living player has the Werewolf faction; otherwise the game
   * goes on (None).
   */
  function CheckWinConditions(s: State): (w: Option<Faction>)
    ensures w != Some(Solo)
  {
    var living := Living(s.players);
    if |living| == 0 then None
    else if CountLovers(living) == 2 && |living| == 2 then Some(Lovers)
    else
      var wolves := CountFaction(living, Werewolf, true);
      var villagers := CountFaction(living, Villager, true);
      if wolves > villagers && wolves > 0 then Some(Werewolf)
      else if CountFaction(living, Werewolf, false) == 0 then Some(Villager)
      else None
  }

  /** With nobody alive there is no winner. */
  lemma NoWinnerWhenAllDead(s: State)
    requires forall i :: 0 <= i < |s.players| ==> !s.players[i].isAlive
    ensures CheckWinConditions(s) == None
  {
  }

  /**
   * The Lovers win exactly when the living are two players who both have a
   * lover, and this is decided before any faction count.
   */
  lemma LoversWinFirst(s: State)
    ensures CheckWinConditions(s) == Some(Lovers) <==>
      |Living(s.players)| == 2 && HasLover(Living(s.players)[0]) && HasLover(Living(s.players)[1])
  {
    var living := Living(s.players);
    if |living| == 2 {
      assert CountLovers(living) == 2 <==> HasLover(living[0]) && HasLover(living[1]);
    }
  }

  /** A Werewolf win needs a living Werewolf-faction player without a lover. */
  lemma WerewolfWinNeedsSingleWolf(s: State)
    ensures CheckWinConditions(s) == Some(Werewolf) ==>
      exists i :: 0 <= i < |Living(s.players)| && HasFaction(Living(s.players)[i], Werewolf) &&
                  !HasLover(Living(s.players)[i])
  {
  }

  /** Both of the two living players have a lover. */
  predicate LoversPair(living: seq<PlayerRec>)
  {
    |living| == 2 && HasLover(living[0]) && HasLover(living[1])
  }

  /**
   * The Werewolves win exactly when the Lovers have not, and the living
   * Werewolf-faction players without a lover are at least one and strictly
   * more than the living Villager-faction players without a lover.
   */
  lemma WerewolfWinsExactly(s: State)
    ensures var living := Living(s.players);
      CheckWinConditions(s) == Some(Werewolf) <==>
        !LoversPair(living) &&
        CountFaction(living, Werewolf, true) > CountFaction(living, Villager, true) &&
        CountFaction(living, Werewolf, true) > 0
  {
    var living := Living(s.players);
    LoversWinFirst(s);
  }

  /**
   * Otherwise the game goes on: nobody wins exactly when everyone is dead,
   * or the Lovers and the Werewolves have not won and some living player
   * still has the Werewolf faction.
   */
  lemma NoWinnerOtherwise(s: State)
    ensures var living := Living(s.players);
      CheckWinConditions(s) == None <==>
        |living| == 0 ||
        (!LoversPair(living) &&
         !(CountFaction(living, Werewolf, true) > CountFaction(living, Villager, true) &&
           CountFaction(living, Werewolf, true) > 0) &&
         CountFaction(living, Werewolf, false) > 0)
  {
    var living := Living(s.players);
    LoversWinFirst(s);
  }

  /**
   * The Villagers win exactly when someone is alive, the Lovers have not
   * won, and no living player has the Werewolf faction; Cupid-decorated
   * werewolves have the Lovers faction and do not count.
   */
  lemma VillagersWinWhenNoWolfLives(s: State)
    ensures CheckWinConditions(s) == Some(Villager) <==>
      |Living(s.players)| > 0 && CheckWinConditions(s) != Some(Lovers) &&
      forall i :: 0 <= i < |Living(s.players)| ==> !HasFaction(Living(s.players)[i], Werewolf)
  {
    var living := Living(s.players);
    if |living| > 0 && CheckWinConditions(s) != Some(Lovers) &&
       forall i :: 0 <= i < |living| ==> !HasFaction(living[i], Werewolf) {
      assert CountFaction(living, Werewolf, true) == 0;
    }
  }

  /**
   * One lone werewolf against one lone villager is not a Werewolf win: the
   * comparison is strict, so the game continues.
   */
  lemma EqualNumbersContinue(s: State, wolf: PlayerRec, villager: PlayerRec)
    requires Living(s.players) == [wolf, villager]
    requires HasFaction(wolf, Werewolf) && HasFaction(villager, Villager)
    requires !HasLover(wolf) && !HasLover(villager)
    ensures CheckWinConditions(s) == None
  {
    var living := Living(s.players);
    assert living[1..] == [villager];
    assert living[1..][1..] == [];
    assert CountFaction(living, Werewolf, true) == 1;
    assert CountFaction(living, Villager, true) == 1;
  }

  /** The names of a list of roles. */
  function Names(rs: seq<Role>): (ns: seq<string>)
    ensures |ns| == |rs|
  {
    seq(|rs|, i requires 0 <= i < |rs| => Name(rs[i]))
  }

  const NightOrder: seq<string> := ["Cupid", "Bodyguard", "Werewolf", "Witch", "Seer"]

  /** The roles called each night, as new instances from the role map. */
  method GetNightTurnOrder() returns (rs: seq<Role>)
    ensures Names(rs) == NightOrder
    ensures forall i :: 0 <= i < |rs| ==> Undecorated(rs[i])
  {
    var cupid := MakeRole("Cupid");
    var bodyguard := MakeRole("Bodyguard");
    var werewolf := MakeRole("Werewolf");
    var witch := MakeRole("Witch");
    var seer := MakeRole("Seer");
    rs := [cupid, bodyguard, werewolf, witch, seer];
  }

  /** The first night calls the same roles, then the Hunter. */
  method GetFirstNightTurnOrder() returns (rs: seq<Role>)
    ensures Names(rs) == NightOrder + ["Hunter"]
    ensures forall i :: 0 <= i < |rs| ==> Undecorated(rs[i])
  {
    var cupid := MakeRole("Cupid");
    var bodyguard := MakeRole("Bodyguard");
    var werewolf := MakeRole("Werewolf");
    var witch := MakeRole("Witch");
    var seer := MakeRole("Seer");
    var hunter := MakeRole("Hunter");
    rs := [cupid, bodyguard, werewolf, witch, seer, hunter];
  }

  /** The standard rules let the werewolves kill on the first night. */
  function CanWerewolfKillOnFirstNight(): (b: bool)
    ensures b
  {
    true
  }
}
