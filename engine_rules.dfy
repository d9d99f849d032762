/**
 * What the engine's operations do to the value of the game: who acts for a
 * role, who receives a role, what dawn and the vote do to the players, who
 * wins afterwards, and which history entries and broadcast events each
 * operation writes. Class `GameEngine` is proved against these functions.
 */
module EngineRules {
  import opened Basics
  import opened Roles
  import opened Players
  import opened OrderedMaps
  import opened GameStates
  import opened Actions
  import opened RoleBehaviour
  import opened Rules
  import opened History

  /** The players a new engine seats: one per roster entry, in order, each new. */
  function Seated(roster: seq<(PlayerId, string)>): (ps: seq<PlayerRec>)
    ensures |ps| == |roster|
  {
    seq(|roster|, i requires 0 <= i < |roster| => PlayerRec(roster[i].0, roster[i].1, None, true, false, false, false, None))
  }

  // ---- broadcasting ----

  /**
   * The reactions `_broadcastEvent` collects from the living players that
   * hold a role, in seating order, with a missing `onGameEvent` read as no
   * reaction: there are none, so the immediate-action queue never grows.
   */
  function Reactions(living: seq<PlayerRec>, e: GameEvent): (acts: seq<Action>)
    ensures acts == []
  {
    if |living| == 0 then []
    else
      (if living[0].role.Some? then Listed(OnGameEvent(living[0].role.value, e)) else []) +
      Reactions(living[1..], e)
  }

  /**
   * `_broadcastEvent` as written: `player.role.onGameEvent(…)` is called on
   * every living role holder in turn, and the first role without that
   * method makes the whole call throw.
   */
  function BroadcastAsWritten(living: seq<PlayerRec>, e: GameEvent): Call<seq<Action>>
  {
    if |living| == 0 then Done([])
    else if living[0].role.None? then BroadcastAsWritten(living[1..], e)
    else
      match OnGameEventAsWritten(living[0].role.value, e)
      case TypeError => TypeError
      case Done(acts) =>
        match BroadcastAsWritten(living[1..], e)
        case TypeError => TypeError
        case Done(rest) => Done(Listed(acts) + rest)
  }

  /**
   * The broadcast as written throws exactly when some living player holds
   * a role other than Werewolf, Seer or Bodyguard (bare or decorated);
   * when it does not throw it collects the same (empty) reactions as the
   * model.
   */
  lemma {:induction false} BroadcastAsWrittenFails(living: seq<PlayerRec>, e: GameEvent)
    ensures BroadcastAsWritten(living, e).TypeError? <==>
      exists i :: 0 <= i < |living| && living[i].role.Some? && !DefinesOnGameEvent(living[i].role.value)
    ensures BroadcastAsWritten(living, e).Done? ==> BroadcastAsWritten(living, e).value == Reactions(living, e)
  {
    if |living| > 0 {
      BroadcastAsWrittenFails(living[1..], e);
      assert forall i :: 1 <= i < |living| ==> living[i] == living[1..][i - 1];
      if living[0].role.Some? && !DefinesOnGameEvent(living[0].role.value) {
        assert OnGameEventAsWritten(living[0].role.value, e).TypeError?;
      }
      if exists i :: 0 <= i < |living| && living[i].role.Some? && !DefinesOnGameEvent(living[i].role.value) {
        var i :| 0 <= i < |living| && living[i].role.Some? && !DefinesOnGameEvent(living[i].role.value);
        if i > 0 {
          assert living[1..][i - 1] == living[i];
        }
      }
    }
  }

  /**
   * So when a Villager is assigned before `startFirstNight` (the engine
   * lets roles be assigned in any phase), the PHASE_CHANGED broadcast of
   * `startFirstNight` throws. When roles are assigned only after it, the
   * first broadcast that reaches the living Villager throws instead, for
   * example the ACTION_SUBMITTED of the next `submitGroupAction`.
   */
  lemma FirstNightThrowsWithVillager(s: State, v: nat)
    requires v < |s.players| && s.players[v].isAlive && s.players[v].role == Some(VillagerRole)
    ensures BroadcastAsWritten(Living(s.players), PhaseChanged(Night, 0)).TypeError?
  {
    var living := Living(s.players);
    assert s.players[v] in living;
    var i :| 0 <= i < |living| && living[i] == s.players[v];
    BroadcastAsWrittenFails(living, PhaseChanged(Night, 0));
  }

  // ---- who acts ----

  /**
   * `getLivingPlayers().find(p => p.role?.name === name)` (alive) and
   * `players.find(p => !p.isAlive && p.role?.name === name)` (dead): the
   * first seat with that role name and that aliveness.
   */
  function FirstWith(ps: seq<PlayerRec>, name: string, alive: bool): (r: Option<nat>)
    ensures r.Some? ==> r.value < |ps| && ps[r.value].isAlive == alive && RoleNameOf(ps[r.value]) == Some(name)
    ensures r.Some? ==> forall j :: 0 <= j < r.value ==> !(ps[j].isAlive == alive && RoleNameOf(ps[j]) == Some(name))
    ensures r.None? <==> forall j :: 0 <= j < |ps| ==> !(ps[j].isAlive == alive && RoleNameOf(ps[j]) == Some(name))
  {
    if |ps| == 0 then None
    else if ps[0].isAlive == alive && RoleNameOf(ps[0]) == Some(name) then Some(0)
    else
      var r := FirstWith(ps[1..], name, alive);
      assert forall j :: 1 <= j < |ps| ==> ps[j] == ps[1..][j - 1];
      if r.Some? then Some(r.value + 1) else None
  }

  /** The seat that acts for `submitImmediateAction`: a living holder, else a dead one. */
  function ImmediateActor(ps: seq<PlayerRec>, name: string): (r: Option<nat>)
    ensures r.Some? ==> r.value < |ps| && RoleNameOf(ps[r.value]) == Some(name)
    ensures r.None? <==> forall j :: 0 <= j < |ps| ==> RoleNameOf(ps[j]) != Some(name)
    ensures FirstWith(ps, name, true).Some? ==> r == FirstWith(ps, name, true)
  {
    var living := FirstWith(ps, name, true);
    if living.Some? then living else FirstWith(ps, name, false)
  }

  /** `ps.filter(p => p.role?.name === name)`. */
  function WithRole(ps: seq<PlayerRec>, name: string): (r: seq<PlayerRec>)
    ensures |r| <= |ps|
    ensures forall i :: 0 <= i < |r| ==> r[i] in ps && RoleNameOf(r[i]) == Some(name)
    ensures forall i :: 0 <= i < |ps| && RoleNameOf(ps[i]) == Some(name) ==> ps[i] in r
  {
    if |ps| == 0 then []
    else
      var rest := WithRole(ps[1..], name);
      assert forall i :: 1 <= i < |ps| ==> ps[i] == ps[1..][i - 1];
      if RoleNameOf(ps[0]) == Some(name) then [ps[0]] + rest else rest
  }

  /**
   * The filter keeps the players in list order: a single player is kept
   * exactly when it holds the role, and the filter distributes over
   * concatenation.
   */
  lemma {:induction false} WithRoleAppend(a: seq<PlayerRec>, b: seq<PlayerRec>, name: string)
    ensures WithRole(a + b, name) == WithRole(a, name) + WithRole(b, name)
    ensures |a| == 1 ==> WithRole(a, name) == (if RoleNameOf(a[0]) == Some(name) then a else [])
  {
    if |a| == 0 {
      assert a + b == b;
    } else {
      assert (a + b)[0] == a[0] && (a + b)[1..] == a[1..] + b;
      WithRoleAppend(a[1..], b, name);
      var head := if RoleNameOf(a[0]) == Some(name) then [a[0]] else [];
      assert WithRole(a + b, name) == head + WithRole(a[1..] + b, name);
      assert WithRole(a, name) == head + WithRole(a[1..], name);
      if |a| == 1 {
        assert a[1..] == [];
      }
    }
  }

  /** The same filter over player objects. */
  function PlayersWithRole(ps: seq<Player>, name: string): (r: seq<Player>)
    reads ps
    ensures Recs(r) == WithRole(Recs(ps), name)
  {
    if |ps| == 0 then []
    else
      var rest := PlayersWithRole(ps[1..], name);
      assert Recs(ps[1..]) == Recs(ps)[1..];
      RecsCons(ps[0], rest);
      if RoleNameOf(ps[0].Rec()) == Some(name) then [ps[0]] + rest else rest
  }

  /** The living holders of a role: the actors of a group action. */
  function Group(s: State, name: string): seq<PlayerRec>
  {
    WithRole(Living(s.players), name)
  }

  /** The group of a role still includes a seat that is alive and holds it. */
  lemma GroupHas(s: State, name: string, k: nat)
    requires k < |s.players| && s.players[k].isAlive && RoleNameOf(s.players[k]) == Some(name)
    ensures |Group(s, name)| > 0
  {
    assert s.players[k] in Living(s.players);
    var living := Living(s.players);
    var i :| 0 <= i < |living| && living[i] == s.players[k];
    assert living[i] in Group(s, name);
  }

  /** `actions.map(a => a.getType())`. */
  function TypeNames(acts: seq<Action>): (ns: seq<string>)
    ensures |ns| == |acts|
  {
    seq(|acts|, i requires 0 <= i < |acts| => TypeName(acts[i]))
  }

  /**
   * The entries a group submission writes: after each action, one entry
   * whose actors are all living holders of the role, stamped with the state
   * that action left. The acting seat `k` stays alive and keeps its role
   * name, since no role builds a ShootAction, so the actors are never none.
   */
  function GroupEntries(s: State, acts: seq<Action>, name: string, k: nat): (es: seq<HistoryEntry>)
    requires k < |s.players| && s.players[k].isAlive && RoleNameOf(s.players[k]) == Some(name)
    requires NoShoot(acts)
    ensures |es| == |acts|
    decreases |acts|
  {
    if |acts| == 0 then []
    else
      var t := ApplyAll(s, acts);
      GroupHas(t, name, k);
      GroupEntries(s, acts[..|acts| - 1], name, k) + [ActionEntryOf(acts[|acts| - 1], Group(t, name), t)]
  }

  /** The acting seat is still a living holder of the role after the actions, so the group is not empty. */
  lemma ActingSeatStays(s: State, acts: seq<Action>, name: string, k: nat)
    requires k < |s.players| && s.players[k].isAlive && RoleNameOf(s.players[k]) == Some(name)
    requires NoShoot(acts)
    ensures |Group(ApplyAll(s, acts), name)| > 0
    ensures RoleNameOf(Group(ApplyAll(s, acts), name)[0]) == Some(name)
  {
    GroupHas(ApplyAll(s, acts), name, k);
  }

  /** One more action appends one entry, whose actors are the group after that action. */
  lemma GroupEntriesSnoc(s: State, pre: seq<Action>, a: Action, name: string, k: nat)
    requires k < |s.players| && s.players[k].isAlive && RoleNameOf(s.players[k]) == Some(name)
    requires NoShoot(pre + [a])
    ensures NoShoot(pre)
    ensures |Group(ApplyAll(s, pre + [a]), name)| > 0
    ensures GroupEntries(s, pre + [a], name, k) ==
      GroupEntries(s, pre, name, k) + [ActionEntryOf(a, Group(ApplyAll(s, pre + [a]), name), ApplyAll(s, pre + [a]))]
  {
    assert (pre + [a])[..|pre|] == pre;
    assert forall i :: 0 <= i < |pre| ==> pre[i] == (pre + [a])[i];
    ActingSeatStays(s, pre + [a], name, k);
  }

  /** Logging the next action's entry after the earlier ones extends a history by `GroupEntries` of one action more. */
  lemma GroupLogExtends(s: State, pre: seq<Action>, a: Action, name: string, k: nat, h0: seq<HistoryEntry>, t: State, h: seq<HistoryEntry>)
    requires k < |s.players| && s.players[k].isAlive && RoleNameOf(s.players[k]) == Some(name)
    requires NoShoot(pre + [a]) && NoShoot(pre)
    requires t == ApplyAll(s, pre + [a]) && |Group(t, name)| > 0
    requires h == (h0 + GroupEntries(s, pre, name, k)) + [ActionEntryOf(a, Group(t, name), t)]
    ensures h == h0 + GroupEntries(s, pre + [a], name, k)
  {
    GroupEntriesSnoc(s, pre, a, name, k);
    AppendAssoc(h0, GroupEntries(s, pre, name, k), [ActionEntryOf(a, Group(t, name), t)]);
  }

  /** Each entry records its action's type, and the acting role's name. */
  predicate GroupRecorded(es: seq<HistoryEntry>, acts: seq<Action>, name: string)
  {
    |es| == |acts| &&
    forall i :: 0 <= i < |acts| ==>
      es[i].entryType == ActionEntry && es[i].actionType == Some(TypeName(acts[i])) && es[i].roleName == Some(name)
  }

  /** Recording one more action after recorded ones keeps the record. */
  lemma GroupRecordedSnoc(es: seq<HistoryEntry>, acts: seq<Action>, e: HistoryEntry, a: Action, name: string)
    requires GroupRecorded(es, acts, name)
    requires e.entryType == ActionEntry && e.actionType == Some(TypeName(a)) && e.roleName == Some(name)
    ensures GroupRecorded(es + [e], acts + [a], name)
  {
    forall i | 0 <= i < |acts| + 1
      ensures (es + [e])[i].actionType == Some(TypeName((acts + [a])[i]))
    {
      if i < |acts| {
        assert (es + [e])[i] == es[i] && (acts + [a])[i] == acts[i];
      }
    }
  }

  /**
   * Each entry of a group submission records its action's type and the
   * acting role's name.
   */
  lemma {:induction false} GroupEntriesRecord(s: State, acts: seq<Action>, name: string, k: nat)
    requires k < |s.players| && s.players[k].isAlive && RoleNameOf(s.players[k]) == Some(name)
    requires NoShoot(acts)
    ensures GroupRecorded(GroupEntries(s, acts, name, k), acts, name)
    decreases |acts|
  {
    if |acts| > 0 {
      var init := acts[..|acts| - 1];
      var a := acts[|acts| - 1];
      assert acts == init + [a];
      GroupEntriesRecord(s, init, name, k);
      var t := ApplyAll(s, acts);
      ActingSeatStays(s, acts, name, k);
      GroupRecordedSnoc(GroupEntries(s, init, name, k), init, ActionEntryOf(a, Group(t, name), t), a, name);
    }
  }

  /** The entries of an immediate action: the acting seat alone is the actor of each. */
  function SoloEntries(s: State, acts: seq<Action>, k: nat): (es: seq<HistoryEntry>)
    requires k < |s.players|
    ensures |es| == |acts|
    decreases |acts|
  {
    if |acts| == 0 then []
    else
      var t := ApplyAll(s, acts);
      assert |IdsOf(t.players)| == |t.players|;
      SoloEntries(s, acts[..|acts| - 1], k) + [ActionEntryOf(acts[|acts| - 1], [t.players[k]], t)]
  }

  /** Each entry records its action's type and is not a group entry. */
  predicate SoloRecorded(es: seq<HistoryEntry>, acts: seq<Action>)
  {
    |es| == |acts| &&
    forall i :: 0 <= i < |acts| ==>
      es[i].entryType == ActionEntry && es[i].actionType == Some(TypeName(acts[i])) &&
      es[i].eventData.Some? && es[i].eventData.value.ActionDetails? && !es[i].eventData.value.isGroupAction
  }

  /** Recording one more action after recorded ones keeps the record. */
  lemma SoloRecordedSnoc(es: seq<HistoryEntry>, acts: seq<Action>, e: HistoryEntry, a: Action)
    requires SoloRecorded(es, acts)
    requires e.entryType == ActionEntry && e.actionType == Some(TypeName(a))
    requires e.eventData.Some? && e.eventData.value.ActionDetails? && !e.eventData.value.isGroupAction
    ensures SoloRecorded(es + [e], acts + [a])
  {
    forall i | 0 <= i < |acts| + 1
      ensures (es + [e])[i].actionType == Some(TypeName((acts + [a])[i]))
    {
      if i < |acts| {
        assert (es + [e])[i] == es[i] && (acts + [a])[i] == acts[i];
      }
    }
  }

  /** Each entry of an immediate action records its action's type and is not a group entry. */
  lemma {:induction false} SoloEntriesRecord(s: State, acts: seq<Action>, k: nat)
    requires k < |s.players|
    ensures SoloRecorded(SoloEntries(s, acts, k), acts)
    decreases |acts|
  {
    if |acts| > 0 {
      var init := acts[..|acts| - 1];
      var a := acts[|acts| - 1];
      assert acts == init + [a];
      SoloEntriesRecord(s, init, k);
      var t := ApplyAll(s, acts);
      assert |IdsOf(t.players)| == |t.players|;
      SoloRecordedSnoc(SoloEntries(s, init, k), init, ActionEntryOf(a, [t.players[k]], t), a);
    }
  }

  /** One ACTION_SUBMITTED broadcast per immediate action, each naming its one action type as a bare string. */
  function SoloEvents(name: string, acts: seq<Action>): (es: seq<GameEvent>)
    ensures |es| == |acts|
    ensures forall i :: 0 <= i < |acts| ==> es[i] == ActionSubmitted(name, OneType(TypeName(acts[i])))
  {
    seq(|acts|, i requires 0 <= i < |acts| => ActionSubmitted(name, OneType(TypeName(acts[i]))))
  }

  /** One more immediate action appends one entry, whose actor is the acting seat as that action left it. */
  lemma SoloLogExtends(s: State, pre: seq<Action>, a: Action, k: nat, h0: seq<HistoryEntry>, t: State, h: seq<HistoryEntry>)
    requires k < |s.players|
    requires t == ApplyAll(s, pre + [a]) && k < |t.players|
    requires h == (h0 + SoloEntries(s, pre, k)) + [ActionEntryOf(a, [t.players[k]], t)]
    ensures h == h0 + SoloEntries(s, pre + [a], k)
  {
    assert (pre + [a])[..|pre|] == pre;
    AppendAssoc(h0, SoloEntries(s, pre, k), [ActionEntryOf(a, [t.players[k]], t)]);
  }

  /** One more immediate action appends one ACTION_SUBMITTED broadcast. */
  lemma SoloEventsSnoc(name: string, pre: seq<Action>, a: Action)
    ensures SoloEvents(name, pre + [a]) == SoloEvents(name, pre) + [ActionSubmitted(name, OneType(TypeName(a)))]
  {
    assert forall i :: 0 <= i < |pre| ==> (pre + [a])[i] == pre[i];
  }

  /**
   * The target of an immediate action: the payload itself when it is a
   * string, else its `targetId`, looked up only when truthy.
   */
  function TargetSeat(s: State, p: Payload): (t: Option<nat>)
    ensures t.Some? ==> t.value < |s.players|
  {
    var targetId := if p.JStr? then Some(p.s) else OrNull(Prop(p, "targetId"));
    if TruthyId(targetId) then Find(s.players, targetId.value) else None
  }

  /**
   * The PLAYER_DIED broadcast of `submitImmediateAction`: sent when the
   * target was alive before the actions and is dead after them.
   */
  function ShotEvents(s0: State, t: State, target: Option<nat>): seq<GameEvent>
    requires |t.players| == |s0.players|
    requires target.Some? ==> target.value < |s0.players|
  {
    if target.Some? && s0.players[target.value].isAlive && !t.players[target.value].isAlive
    then [PlayerDied(t.players[target.value].id, Shot)]
    else []
  }

  /**
   * Actions without a ShootAction never kill outright, so that broadcast
   * is never sent: a dead Hunter's shot only marks its target.
   */
  lemma ShotNeverBroadcast(s0: State, acts: seq<Action>, target: Option<nat>)
    requires NoShoot(acts)
    requires target.Some? ==> target.value < |s0.players|
    ensures |ApplyAll(s0, acts).players| == |s0.players|
    ensures ShotEvents(s0, ApplyAll(s0, acts), target) == []
  {
    assert |IdsOf(ApplyAll(s0, acts).players)| == |ApplyAll(s0, acts).players|;
  }

  // ---- game over ----

  /** The win check after a change: a winner ends the game. */
  function Concluded(s: State): (r: State)
    ensures CheckWinConditions(s).Some? ==> r == s.(winner := CheckWinConditions(s), phase := Finished)
    ensures CheckWinConditions(s).None? ==> r == s
  {
    var w := CheckWinConditions(s);
    if w.Some? then s.(winner := w, phase := Finished) else s
  }

  /** The GAME_ENDED entry the win check writes when it finds a winner, and nothing otherwise. */
  function GameEndLog(t: State): (es: seq<HistoryEntry>)
    ensures CheckWinConditions(t).None? ==> es == []
    ensures CheckWinConditions(t).Some? ==>
      es == [GameEventOf("GAME_ENDED", Concluded(t), Some(GameEnded(CheckWinConditions(t).value)), None)] &&
      es[0].phase == Finished
  {
    var w := CheckWinConditions(t);
    if w.Some? then [GameEventOf("GAME_ENDED", Concluded(t), Some(GameEnded(w.value)), None)] else []
  }

  // ---- role assignment ----

  /**
   * The seats `assignRoleToPlayers` gives the role to, in the order of the
   * id list: for each id the first seat with it, when that seat has no role
   * and has not just been given one. Unknown ids and seats that already
   * hold a role are skipped.
   */
  function AssignOrder(ps: seq<PlayerRec>, ids: seq<PlayerId>): (seats: seq<nat>)
    ensures forall i :: 0 <= i < |seats| ==> seats[i] < |ps|
    ensures NoDup(seats)
    ensures forall j :: 0 <= j < |ps| ==>
      (j in seats <==> ps[j].role.None? && ps[j].id in ids && Find(ps, ps[j].id) == Some(j))
    decreases |ids|
  {
    if |ids| == 0 then []
    else
      var init := ids[..|ids| - 1];
      var id := ids[|ids| - 1];
      var before := AssignOrder(ps, init);
      assert forall x :: x in ids <==> x in init || x == id;
      var seat := Find(ps, id);
      if seat.Some? && ps[seat.value].role.None? && seat.value !in before then before + [seat.value]
      else before
  }

  /** The names of the assigned players, in order of assignment. */
  function NamesAt(ps: seq<PlayerRec>, seats: seq<nat>): (ns: seq<string>)
    requires forall i :: 0 <= i < |seats| ==> seats[i] < |ps|
    ensures |ns| == |seats|
  {
    seq(|seats|, i requires 0 <= i < |seats| => ps[seats[i]].name)
  }

  lemma NamesAtSnoc(ps: seq<PlayerRec>, seats: seq<nat>, k: nat)
    requires forall i :: 0 <= i < |seats| ==> seats[i] < |ps|
    requires k < |ps|
    ensures NamesAt(ps, seats + [k]) == NamesAt(ps, seats) + [ps[k].name]
  {
  }

  /** A role as the role map's factory for `name` builds it. */
  predicate Fresh(r: Option<Role>, name: string)
  {
    r.Some? && Name(r.value) == name && Undecorated(r.value)
  }

  /**
   * `s` is `s0` with exactly the seats `seats` given a new instance of role
   * `name`; nothing else differs.
   */
  predicate AssignedAt(s0: State, s: State, seats: seq<nat>, name: string)
  {
    s == s0.(players := s.players) && |s.players| == |s0.players| &&
    forall j :: 0 <= j < |s0.players| ==>
      (j in seats ==> Fresh(s.players[j].role, name) && s.players[j] == s0.players[j].(role := s.players[j].role)) &&
      (j !in seats ==> s.players[j] == s0.players[j])
  }

  /** One step of the assignment loop, for an id that names no role-less seat: nothing changes. */
  lemma AssignSkip(s0: State, s: State, ids: seq<PlayerId>, id: PlayerId, name: string)
    requires AssignedAt(s0, s, AssignOrder(s0.players, ids), name)
    requires Find(s.players, id).None? || s.players[Find(s.players, id).value].role.Some?
    ensures AssignOrder(s0.players, ids + [id]) == AssignOrder(s0.players, ids)
  {
    assert (ids + [id])[..|ids|] == ids;
    assert IdsOf(s.players) == IdsOf(s0.players);
  }

  /**
   * One step of the assignment loop, for an id whose first seat has no
   * role: the seat gets the role and joins the assigned seats.
   */
  lemma AssignGive(s0: State, s: State, ids: seq<PlayerId>, id: PlayerId, name: string, r: Role)
    requires AssignedAt(s0, s, AssignOrder(s0.players, ids), name)
    requires Find(s.players, id).Some? && s.players[Find(s.players, id).value].role.None?
    requires Name(r) == name && Undecorated(r)
    ensures Find(s.players, id) == Find(s0.players, id)
    ensures AssignOrder(s0.players, ids + [id]) == AssignOrder(s0.players, ids) + [Find(s.players, id).value]
    ensures AssignedAt(s0, s.(players := SetRole(s.players, Find(s.players, id).value, Some(r))),
                       AssignOrder(s0.players, ids + [id]), name)
  {
    assert (ids + [id])[..|ids|] == ids;
    assert IdsOf(s.players) == IdsOf(s0.players);
  }

  // ---- the night ----

  /** One seat at dawn: a living player marked for death dies and loses the mark. */
  function Dawn(p: PlayerRec): PlayerRec
  {
    if p.isMarkedForDeath && p.isAlive then p.(isAlive := false, isMarkedForDeath := false) else p
  }

  function DawnAll(ps: seq<PlayerRec>): (r: seq<PlayerRec>)
    ensures |r| == |ps| && forall j :: 0 <= j < |ps| ==> r[j] == Dawn(ps[j])
  {
    seq(|ps|, j requires 0 <= j < |ps| => Dawn(ps[j]))
  }

  /** The ids of the players who die at dawn, in seating order. */
  function DyingIds(ps: seq<PlayerRec>): (ids: seq<PlayerId>)
    ensures |ids| <= |ps|
    ensures forall j :: 0 <= j < |ps| && ps[j].isMarkedForDeath && ps[j].isAlive ==> ps[j].id in ids
  {
    if |ps| == 0 then []
    else
      var init := ps[..|ps| - 1];
      var last := ps[|ps| - 1];
      var before := DyingIds(init);
      assert forall j :: 0 <= j < |init| ==> init[j] == ps[j];
      before + (if last.isMarkedForDeath && last.isAlive then [last.id] else [])
  }

  /** Some living player of `ps` marked for death has id `x`. */
  predicate DyingId(ps: seq<PlayerRec>, x: PlayerId)
  {
    exists j :: 0 <= j < |ps| && ps[j].id == x && ps[j].isMarkedForDeath && ps[j].isAlive
  }

  /** Every id in the list belongs to a living player marked for death. */
  lemma {:induction false} DyingIdsAreDying(ps: seq<PlayerRec>)
    ensures forall i :: 0 <= i < |DyingIds(ps)| ==> DyingId(ps, DyingIds(ps)[i])
  {
    if |ps| > 0 {
      var init := ps[..|ps| - 1];
      DyingIdsAreDying(init);
      var ids := DyingIds(ps);
      forall i | 0 <= i < |ids|
        ensures DyingId(ps, ids[i])
      {
        var last := ps[|ps| - 1];
        assert ids == DyingIds(init) + (if last.isMarkedForDeath && last.isAlive then [last.id] else []);
        if i < |DyingIds(init)| {
          assert DyingId(init, DyingIds(init)[i]);
          var j :| 0 <= j < |init| && init[j].id == DyingIds(init)[i] && init[j].isMarkedForDeath && init[j].isAlive;
          assert ps[j] == init[j] && ids[i] == DyingIds(init)[i];
        } else {
          assert last.isMarkedForDeath && last.isAlive && last.id == ids[i];
          assert ps[|ps| - 1].id == ids[i];
        }
      }
    }
  }

  /** One PLAYER_DIED broadcast per id. */
  function DeathEvents(ids: seq<PlayerId>, cause: DeathCause): (es: seq<GameEvent>)
    ensures |es| == |ids| && forall i :: 0 <= i < |ids| ==> es[i] == PlayerDied(ids[i], cause)
  {
    seq(|ids|, i requires 0 <= i < |ids| => PlayerDied(ids[i], cause))
  }

  /** The first `j` seats have seen the dawn, the rest not yet. */
  function DawnPrefix(ps: seq<PlayerRec>, j: nat): (r: seq<PlayerRec>)
    ensures |r| == |ps|
    ensures forall i :: 0 <= i < |ps| ==> r[i] == if i < j then Dawn(ps[i]) else ps[i]
  {
    seq(|ps|, i requires 0 <= i < |ps| => if i < j then Dawn(ps[i]) else ps[i])
  }

  /** Seat `j` seeing the dawn extends the prefix by one; with every seat done, that is `DawnAll`. */
  lemma DawnPrefixStep(ps: seq<PlayerRec>, j: nat)
    requires j < |ps|
    ensures DawnPrefix(ps, j)[j] == ps[j]
    ensures DawnPrefix(ps, j)[j := Dawn(ps[j])] == DawnPrefix(ps, j + 1)
  {
  }

  /** With every seat done, the prefix is the whole dawn. */
  lemma DawnPrefixAll(ps: seq<PlayerRec>)
    ensures DawnPrefix(ps, |ps|) == DawnAll(ps) && ps[..|ps|] == ps
  {
  }

  /** The dying ids of one more seat. */
  lemma DyingIdsSnoc(ps: seq<PlayerRec>, j: nat)
    requires j < |ps|
    ensures DyingIds(ps[..j + 1]) ==
      DyingIds(ps[..j]) + (if ps[j].isMarkedForDeath && ps[j].isAlive then [ps[j].id] else [])
  {
    assert ps[..j + 1][..j] == ps[..j];
  }

  /** The broadcasts of one more death. */
  lemma DeathEventsSnoc(ids: seq<PlayerId>, i: nat, cause: DeathCause)
    requires i < |ids|
    ensures DeathEvents(ids[..i + 1], cause) == DeathEvents(ids[..i], cause) + [PlayerDied(ids[i], cause)]
  {
  }

  /** The state after dawn, before the win check. */
  function AtDawn(s: State): State
  {
    s.(players := DawnAll(s.players))
  }

  /**
   * `resolveNight` from the Night phase: exactly the living players marked
   * for death die and lose the mark; then either a winner ends the game,
   * or the day number goes up by one and the discussion begins; either
   * way the night's records are reset and nobody stays protected.
   */
  function NightEnd(s: State): (r: State)
    ensures |r.players| == |s.players|
    ensures forall j :: 0 <= j < |s.players| ==>
      r.players[j].isAlive == (s.players[j].isAlive && !s.players[j].isMarkedForDeath) &&
      r.players[j].isMarkedForDeath == (s.players[j].isMarkedForDeath && !s.players[j].isAlive) &&
      !r.players[j].isProtected &&
      r.players[j].(isAlive := s.players[j].isAlive, isMarkedForDeath := s.players[j].isMarkedForDeath,
                    isProtected := s.players[j].isProtected) == s.players[j]
    ensures (r.phase == Finished && r.winner.Some? && r.winner == CheckWinConditions(AtDawn(s)) && r.dayNumber == s.dayNumber) ||
            (r.phase == DayDiscuss && CheckWinConditions(AtDawn(s)).None? && r.winner == s.winner &&
             r.dayNumber == s.dayNumber + 1)
    ensures r.nightlyKills == [] && r.nightlyHealed.None? && r.nightlyPoisoned.None? && r.lastSeerResult.None?
  {
    ResetNightly(NewDay(AtDawn(s)))
  }

  /** After the deaths of the night: a winner ends the game, or the next day's discussion begins. */
  function NewDay(s: State): State
  {
    if CheckWinConditions(s).Some? then Concluded(s) else s.(dayNumber := s.dayNumber + 1, phase := DayDiscuss)
  }

  /** The entry written after the deaths of the night: GAME_ENDED, or DAY_STARTED with the new day. */
  function NewDayLog(s: State): seq<HistoryEntry>
  {
    var w := CheckWinConditions(s);
    if w.Some? then [GameEventOf("GAME_ENDED", Concluded(s), Some(GameEnded(w.value)), None)]
    else [GameEventOf("DAY_STARTED", NewDay(s), Some(DayStarted(s.dayNumber + 1)), None)]
  }

  /** The new day is broadcast only when the game goes on. */
  function NewDayEvents(s: State): seq<GameEvent>
  {
    if CheckWinConditions(s).Some? then [] else [PhaseChanged(DayDiscuss, s.dayNumber + 1)]
  }

  /** The NIGHT_ENDED entry: the dead in seating order and their number, stamped after dawn. */
  function NightEndedLog(s: State): seq<HistoryEntry>
  {
    var dead := DyingIds(s.players);
    [GameEventOf("NIGHT_ENDED", AtDawn(s), Some(NightEnded(dead, |dead|, s.dayNumber)), None)]
  }

  /** The history entries of `resolveNight`: NIGHT_ENDED with the dead, then the entry of the new day. */
  function NightLog(s: State): seq<HistoryEntry>
  {
    NightEndedLog(s) + NewDayLog(AtDawn(s))
  }

  /** The broadcasts of `resolveNight`: one death per victim, then the new day unless the game is over. */
  function NightEvents(s: State): seq<GameEvent>
  {
    DeathEvents(DyingIds(s.players), Killed) + NewDayEvents(AtDawn(s))
  }

  /** Two actions in a row are the second applied to the result of the first. */
  lemma ApplyTwo(s: State, a: Action, b: Action)
    ensures ApplyAll(s, [a, b]) == Apply(Apply(s, a), b)
  {
    assert [a, b][1..] == [b];
    assert [b][1..] == [];
    var t := Apply(s, a);
    assert ApplyAll(t, [b]) == ApplyAll(Apply(t, b), []);
  }

  /** A bite on a living, unprotected player marks them; the Witch's heal then clears the mark. */
  lemma KillThenHeal(s: State, i: nat, killer: PlayerId)
    requires UniqueIds(s.players) && i < |s.players|
    requires s.players[i].isAlive && !s.players[i].isProtected
    ensures var r := ApplyAll(s, [Kill(s.players[i].id, killer), Heal(s.players[i].id)]);
      |r.players| == |s.players| && r.players[i].isAlive && !r.players[i].isMarkedForDeath
  {
    var t := s.players[i].id;
    FindOwnId(s.players, i);
    var s1 := Apply(s, Kill(t, killer));
    assert s1.players[i].isMarkedForDeath;
    assert Find(s1.players, t) == Some(i) by {
      assert IdsOf(s1.players) == IdsOf(s.players);
    }
    ApplyTwo(s, Kill(t, killer), Heal(t));
  }

  /** A bite on a living, unprotected player followed by the Witch's heal: the player sees the morning. */
  lemma HealedVictimSurvives(s: State, i: nat, killer: PlayerId)
    requires UniqueIds(s.players) && i < |s.players|
    requires s.players[i].isAlive && !s.players[i].isProtected
    ensures NightEnd(ApplyAll(s, [Kill(s.players[i].id, killer), Heal(s.players[i].id)])).players[i].isAlive
  {
    KillThenHeal(s, i, killer);
  }

  /** The Bodyguard's protection leaves a bitten player unmarked. */
  lemma ProtectThenKill(s: State, i: nat, killer: PlayerId)
    requires UniqueIds(s.players) && i < |s.players|
    requires s.players[i].isAlive && !s.players[i].isMarkedForDeath
    ensures var r := ApplyAll(s, [Protect(s.players[i].id), Kill(s.players[i].id, killer)]);
      |r.players| == |s.players| && r.players[i].isAlive && !r.players[i].isMarkedForDeath
  {
    var t := s.players[i].id;
    FindOwnId(s.players, i);
    var s1 := Apply(s, Protect(t));
    assert s1.players[i].isProtected && !s1.players[i].isMarkedForDeath && s1.players[i].isAlive;
    assert Find(s1.players, t) == Some(i) by {
      assert IdsOf(s1.players) == IdsOf(s.players);
    }
    ApplyTwo(s, Protect(t), Kill(t, killer));
  }

  /** The Bodyguard's protection absorbs the wolves' bite. */
  lemma ProtectionAbsorbsBite(s: State, i: nat, killer: PlayerId)
    requires UniqueIds(s.players) && i < |s.players|
    requires s.players[i].isAlive && !s.players[i].isMarkedForDeath
    ensures NightEnd(ApplyAll(s, [Protect(s.players[i].id), Kill(s.players[i].id, killer)])).players[i].isAlive
  {
    ProtectThenKill(s, i, killer);
  }

  /** The Witch's poison goes through protection. */
  lemma PoisonIgnoresProtection(s: State, i: nat)
    requires UniqueIds(s.players) && i < |s.players|
    requires s.players[i].isAlive && s.players[i].isProtected
    ensures !NightEnd(ApplyAll(s, [Poison(s.players[i].id)])).players[i].isAlive
  {
    var t := s.players[i].id;
    FindOwnId(s.players, i);
    assert Apply(s, Poison(t)).players[i].isMarkedForDeath;
  }

  // ---- the vote ----

  /** The seat of the voted-out player: looked up only for a truthy id. */
  function VotedSeat(s: State, votedPlayerId: Option<PlayerId>): (v: Option<nat>)
    ensures v.Some? ==> votedPlayerId.Some? && v.value < |s.players| && s.players[v.value].id == votedPlayerId.value
  {
    if TruthyId(votedPlayerId) then Find(s.players, votedPlayerId.value) else None
  }

  /** The state after the voted-out player dies (if any), before the win check. */
  function AfterVote(s: State, v: Option<nat>): (r: State)
    requires v.Some? ==> v.value < |s.players|
  {
    if v.Some? then s.(players := s.players[v.value := s.players[v.value].(isAlive := false)]) else s
  }

  /**
   * `resolveVoting`, in any phase: the voted-out player, if found, dies;
   * then a winner ends the game, or night falls with the day number
   * unchanged. Nobody else changes.
   */
  function VoteEnd(s: State, v: Option<nat>): (r: State)
    requires v.Some? ==> v.value < |s.players|
    ensures |r.players| == |s.players|
    ensures forall j :: 0 <= j < |s.players| ==>
      r.players[j] == if v == Some(j) then s.players[j].(isAlive := false) else s.players[j]
    ensures r.dayNumber == s.dayNumber
    ensures (r.phase == Finished && r.winner.Some? && r.winner == CheckWinConditions(AfterVote(s, v))) ||
            (r.phase == Night && r.winner == s.winner && CheckWinConditions(AfterVote(s, v)).None?)
    ensures (r.nightlyKills, r.nightlyHealed, r.nightlyPoisoned, r.lastSeerResult) ==
            (s.nightlyKills, s.nightlyHealed, s.nightlyPoisoned, s.lastSeerResult)
  {
    Nightfall(AfterVote(s, v))
  }

  /** After the vote: a winner ends the game, or night falls on the same day. */
  function Nightfall(s: State): State
  {
    if CheckWinConditions(s).Some? then Concluded(s) else s.(phase := Night)
  }

  /** The entry written after the vote: GAME_ENDED, or NIGHT_STARTED. */
  function NightfallLog(s: State): seq<HistoryEntry>
  {
    var w := CheckWinConditions(s);
    if w.Some? then [GameEventOf("GAME_ENDED", Concluded(s), Some(GameEnded(w.value)), None)]
    else [GameEventOf("NIGHT_STARTED", Nightfall(s), Some(NightStarted(s.dayNumber)), None)]
  }

  /** The night is broadcast only when the game goes on. */
  function NightfallEvents(s: State): seq<GameEvent>
  {
    if CheckWinConditions(s).Some? then [] else [PhaseChanged(Night, s.dayNumber)]
  }

  /** The VOTING_ENDED entry, stamped before the death. */
  function VotingEndedLog(s: State, v: Option<nat>): seq<HistoryEntry>
    requires v.Some? ==> v.value < |s.players|
  {
    [GameEventOf("VOTING_ENDED", s, Some(VotingEnded(if v.Some? then Some(s.players[v.value].id) else None, s.dayNumber)), None)]
  }

  /** The history entries of `resolveVoting`: VOTING_ENDED before the death, then the entry of the night. */
  function VoteLog(s: State, v: Option<nat>): seq<HistoryEntry>
    requires v.Some? ==> v.value < |s.players|
  {
    VotingEndedLog(s, v) + NightfallLog(AfterVote(s, v))
  }

  /** The death broadcast of the voted-out player, if any. */
  function VotedOutEvents(s: State, v: Option<nat>): seq<GameEvent>
    requires v.Some? ==> v.value < |s.players|
  {
    if v.Some? then [PlayerDied(s.players[v.value].id, VotedOut)] else []
  }

  /** The broadcasts of `resolveVoting`: the death of the voted-out player, then the night unless the game is over. */
  function VoteEvents(s: State, v: Option<nat>): seq<GameEvent>
    requires v.Some? ==> v.value < |s.players|
  {
    VotedOutEvents(s, v) + NightfallEvents(AfterVote(s, v))
  }
}
