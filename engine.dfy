/**
 * The game engine: the object that owns the game state, the structured
 * history, the broadcast log and the two undo stacks, and drives the game
 * from setup through the nights and votes. Each operation is proved
 * against the functions of module EngineRules.
 */
module Engine {
  import opened Basics
  import opened Text
  import opened Roles
  import opened Players
  import opened OrderedMaps
  import opened GameStates
  import opened Actions
  import opened RoleBehaviour
  import opened Rules
  import opened History
  import opened EngineRules

  /** The actions a list of commands carries. */
  function Acts(cs: seq<Command>): (acts: seq<Action>)
    ensures |acts| == |cs|
  {
    seq(|cs|, i requires 0 <= i < |cs| => cs[i].action)
  }

  /**
   * The Witch that the role held at seat `k` is or wraps, if any: the only
   * object besides the game state that an action submitted through that
   * player may update, since `createAction` spends only its own potions.
   */
  function HolderPotions(ps: seq<PlayerRec>, k: Option<nat>): set<Witch>
  {
    if k.Some? && k.value < |ps| && ps[k.value].role.Some? then Potions(ps[k.value].role.value) else {}
  }

  /** Commands that carry a list of actions hold exactly those actions. */
  lemma CarriedActs(cmds: seq<Command>, acts: seq<Action>)
    requires Carries(cmds, acts)
    ensures Acts(cmds) == acts
  {
  }

  /** The actions of the first `n + 1` commands extend those of the first `n` by the next one. */
  lemma ActsSnoc(cs: seq<Command>, n: nat)
    requires n < |cs|
    ensures Acts(cs[..n + 1]) == Acts(cs[..n]) + [cs[n].action]
  {
    assert cs[..n + 1] == cs[..n] + [cs[n]];
  }

  /** The prefix of `n + 1` actions extends the prefix of `n` by the next one. */
  lemma SnocPrefix(acts: seq<Action>, pre: seq<Action>, n: nat)
    requires n < |acts| && pre == acts[..n]
    ensures pre + [acts[n]] == acts[..n + 1]
  {
    assert acts[..n + 1] == acts[..n] + [acts[n]];
  }

  /** As `SnocPrefix`, and neither prefix shoots. */
  lemma PrefixSnoc(acts: seq<Action>, pre: seq<Action>, n: nat)
    requires n < |acts| && pre == acts[..n] && NoShoot(acts)
    ensures pre + [acts[n]] == acts[..n + 1] && NoShoot(pre + [acts[n]])
  {
    assert acts[..n + 1] == pre + [acts[n]];
  }

  /** Two extensions in a row are one extension by both parts. */
  lemma SplitLog<T>(h0: seq<T>, h1: seq<T>, h2: seq<T>, a: seq<T>, b: seq<T>)
    requires h1 == h0 + a && h2 == h1 + b
    ensures h2 == h0 + (a + b)
  {
  }

  class GameEngine {
    const gameState: GameState
    var immediateActionQueue: seq<Command>
    /** Every event broadcast so far, in order. */
    var gameHistory: seq<GameEvent>
    const actionHistory: GameHistory
    var votingResults: Entries<string, seq<string>>
    var undoActionHistory: seq<Command>
    var stateSnapshots: seq<Snapshot>

    /**
     * Between calls the immediate-action queue is empty and there are
     * never more snapshots than undoable actions, since every snapshot
     * comes with at least one action.
     */
    ghost predicate Valid()
      reads this, gameState
    {
      gameState.Valid() && immediateActionQueue == [] && |stateSnapshots| <= |undoActionHistory|
    }

    /** A new engine: the roster seated in order, no roles yet, in Setup, with GAME_STARTED broadcast. */
    constructor (roster: seq<(PlayerId, string)>)
      ensures Valid() && fresh(gameState) && fresh(actionHistory)
      ensures gameState.Abs() == InitialState(Seated(roster))
      ensures gameHistory == [GameStarted(|roster|)]
      ensures actionHistory.entries == [] && undoActionHistory == [] && stateSnapshots == [] && votingResults == []
    {
      var ps: seq<Player> := [];
      for k := 0 to |roster|
        invariant |ps| == k && Distinct(ps)
        invariant forall i :: 0 <= i < k ==> fresh(ps[i]) && ps[i].Rec() == Seated(roster)[i]
      {
        var p := new Player(roster[k].0, roster[k].1);
        ps := ps + [p];
      }
      assert Recs(ps) == Seated(roster);
      gameState := new GameState(ps);
      actionHistory := new GameHistory();
      immediateActionQueue := [];
      gameHistory := [];
      votingResults := [];
      undoActionHistory := [];
      stateSnapshots := [];
      new;
      Broadcast(GameStarted(|ps|));
    }

    /**
     * `_broadcastEvent`: the event is logged, and every living role holder
     * is asked for a reaction; the reactions join the immediate-action
     * queue. No role reacts, so the queue is left as it was.
     */
    method Broadcast(e: GameEvent)
      requires Valid()
      modifies this
      ensures Valid()
      ensures gameHistory == old(gameHistory) + [e]
      ensures (immediateActionQueue, votingResults, undoActionHistory, stateSnapshots) ==
              old((immediateActionQueue, votingResults, undoActionHistory, stateSnapshots))
      ensures gameState.Abs() == old(gameState.Abs()) && actionHistory.entries == old(actionHistory.entries)
    {
      gameHistory := gameHistory + [e];
      var living := gameState.GetLivingPlayers();
      var reactions: seq<Action> := [];
      for k := 0 to |living|
        invariant reactions == []
      {
        var player := living[k];
        if player.role.Some? {
          reactions := reactions + Listed(OnGameEvent(player.role.value, e));
        }
      }
      var cmds := Instantiate(reactions);
      immediateActionQueue := immediateActionQueue + cmds;
    }

    /** `_processImmediateActions`: the queue is drained front first, each command executed in turn. */
    method ProcessImmediateActions()
      requires gameState.Valid()
      requires forall i :: 0 <= i < |immediateActionQueue| ==> immediateActionQueue[i].Valid()
      requires forall i, j :: 0 <= i < j < |immediateActionQueue| ==> immediateActionQueue[i] != immediateActionQueue[j]
      modifies this, gameState, gameState.players, set i | 0 <= i < |immediateActionQueue| :: immediateActionQueue[i]
      ensures gameState.Valid() && immediateActionQueue == []
      ensures gameState.Abs() == ApplyAll(old(gameState.Abs()), Acts(old(immediateActionQueue)))
      ensures (gameHistory, votingResults, undoActionHistory, stateSnapshots) ==
              old((gameHistory, votingResults, undoActionHistory, stateSnapshots))
    {
      ghost var q0 := immediateActionQueue;
      ghost var s0 := gameState.Abs();
      ghost var n := 0;
      while |immediateActionQueue| > 0
        invariant 0 <= n <= |q0| && immediateActionQueue == q0[n..]
        invariant gameState.Valid() && gameState.Abs() == ApplyAll(s0, Acts(q0[..n]))
        invariant forall i :: n <= i < |q0| ==> q0[i].Valid()
        invariant (gameHistory, votingResults, undoActionHistory, stateSnapshots) ==
                  old((gameHistory, votingResults, undoActionHistory, stateSnapshots))
        decreases |q0| - n
      {
        var action := Shift(q0, n);
        ExecuteQueued(action, s0, q0, n);
        n := n + 1;
      }
      assert q0[..n] == q0;
    }

    /** `queue.shift()`: the front command leaves the queue. */
    method Shift(ghost q0: seq<Command>, ghost n: nat) returns (action: Command)
      requires n < |q0| && immediateActionQueue == q0[n..]
      modifies this
      ensures action == q0[n] && immediateActionQueue == q0[n + 1..]
      ensures (gameState, actionHistory, gameHistory, votingResults, undoActionHistory, stateSnapshots) ==
              old((gameState, actionHistory, gameHistory, votingResults, undoActionHistory, stateSnapshots))
    {
      action := immediateActionQueue[0];
      immediateActionQueue := immediateActionQueue[1..];
    }

    /** One pass of the loop of `processImmediateActions`: the `n`th queued action runs. */
    method ExecuteQueued(action: Command, ghost s0: State, ghost q0: seq<Command>, ghost n: nat)
      requires n < |q0| && action == q0[n] && gameState.Valid()
      requires forall i, j :: 0 <= i < j < |q0| ==> q0[i] != q0[j]
      requires forall i :: n <= i < |q0| ==> q0[i].Valid()
      requires gameState.Abs() == ApplyAll(s0, Acts(q0[..n]))
      modifies gameState, gameState.players, action
      ensures gameState.Valid()
      ensures gameState.Abs() == ApplyAll(s0, Acts(q0[..n + 1]))
      ensures forall i :: n + 1 <= i < |q0| ==> q0[i].Valid()
    {
      ActsSnoc(q0, n);
      ApplyAllSnoc(s0, Acts(q0[..n]), action.action);
      action.Execute(gameState);
    }

    /** `startFirstNight`: night 0 begins, is logged, and is broadcast. */
    method StartFirstNight()
      requires Valid()
      modifies this, gameState, actionHistory
      ensures Valid()
      ensures gameState.Abs() == old(gameState.Abs()).(phase := Night, dayNumber := 0)
      ensures actionHistory.entries ==
        old(actionHistory.entries) + [GameEventOf("FIRST_NIGHT_STARTED", gameState.Abs(), Some(FirstNightStarted(0)), None)]
      ensures gameHistory == old(gameHistory) + [PhaseChanged(Night, 0)]
      ensures (votingResults, undoActionHistory, stateSnapshots) == old((votingResults, undoActionHistory, stateSnapshots))
    {
      gameState.phase := Night;
      gameState.dayNumber := 0;
      actionHistory.AddGameEvent("FIRST_NIGHT_STARTED", gameState, Some(FirstNightStarted(gameState.dayNumber)), None);
      Broadcast(PhaseChanged(Night, gameState.dayNumber));
    }

    /**
     * `assignRoleToPlayers`: an unknown role name fails and changes
     * nothing. Otherwise each listed id that names a role-less player gives
     * that player a new instance of the role; unknown ids and players who
     * already hold a role are skipped. The count reported (and logged, when
     * positive) is the number of players who received the role.
     */
    method AssignRoleToPlayers(playerIds: seq<PlayerId>, roleName: string) returns (res: ActionResult)
      requires Valid()
      modifies gameState.players, actionHistory
      ensures Valid()
      ensures roleName !in RoleMapKeys ==>
        res == ActionResult(false, "Role " + roleName + " not found.") &&
        gameState.Abs() == old(gameState.Abs()) && actionHistory.entries == old(actionHistory.entries)
      ensures roleName in RoleMapKeys ==>
        var s0 := old(gameState.Abs());
        var s := gameState.Abs();
        var seats := AssignOrder(s0.players, playerIds);
        res == ActionResult(true, "Assigned " + roleName + " to " + Dec(|seats|) + " players.") &&
        AssignedAt(s0, s, seats, roleName) &&
        actionHistory.entries == old(actionHistory.entries) +
          if |seats| > 0 then [GameEventOf("ROLE_ASSIGNED", s, Some(RoleAssigned(roleName, NamesAt(s0.players, seats), |seats|)), None)]
          else []
    {
      if roleName !in RoleMapKeys {
        return ActionResult(false, "Role " + roleName + " not found.");
      }
      ghost var s0 := gameState.Abs();
      var assignedCount, assignedPlayers := AssignAll(playerIds, roleName);
      if assignedCount > 0 {
        actionHistory.AddGameEvent("ROLE_ASSIGNED", gameState,
          Some(RoleAssigned(roleName, assignedPlayers, assignedCount)), None);
      }
      res := ActionResult(true, "Assigned " + roleName + " to " + Dec(assignedCount) + " players.");
    }

    /** The loop of `assignRoleToPlayers`: the count and names of the players given the role. */
    method AssignAll(playerIds: seq<PlayerId>, roleName: string) returns (assignedCount: nat, assignedPlayers: seq<string>)
      requires gameState.Valid() && roleName in RoleMapKeys
      modifies gameState.players
      ensures gameState.Valid()
      ensures var seats := AssignOrder(old(gameState.Abs()).players, playerIds);
        assignedCount == |seats| && assignedPlayers == NamesAt(old(gameState.Abs()).players, seats) &&
        AssignedAt(old(gameState.Abs()), gameState.Abs(), seats, roleName)
    {
      ghost var s0 := gameState.Abs();
      assignedCount := 0;
      assignedPlayers := [];
      for n := 0 to |playerIds|
        invariant gameState.Valid()
        invariant var seats := AssignOrder(s0.players, playerIds[..n]);
          assignedCount == |seats| && assignedPlayers == NamesAt(s0.players, seats) &&
          AssignedAt(s0, gameState.Abs(), seats, roleName)
      {
        assert playerIds[..n + 1] == playerIds[..n] + [playerIds[n]];
        ghost var seats := AssignOrder(s0.players, playerIds[..n]);
        var given := AssignOne(playerIds[n], roleName, s0, playerIds[..n]);
        if given.Some? {
          NamesAtSnoc(s0.players, seats, Find(s0.players, playerIds[n]).value);
          assignedCount := assignedCount + 1;
          assignedPlayers := assignedPlayers + [given.value];
        }
      }
      assert playerIds[..|playerIds|] == playerIds;
    }

    /**
     * One pass of the assignment loop: the first player with the id gets a
     * new instance of the role if it has none; the name of that player is
     * returned.
     */
    method AssignOne(id: PlayerId, roleName: string, ghost s0: State, ghost ids: seq<PlayerId>) returns (given: Option<string>)
      requires gameState.Valid() && roleName in RoleMapKeys
      requires AssignedAt(s0, gameState.Abs(), AssignOrder(s0.players, ids), roleName)
      modifies gameState.players
      ensures gameState.Valid()
      ensures AssignedAt(s0, gameState.Abs(), AssignOrder(s0.players, ids + [id]), roleName)
      ensures given.Some? ==>
        Find(s0.players, id).Some? &&
        AssignOrder(s0.players, ids + [id]) == AssignOrder(s0.players, ids) + [Find(s0.players, id).value] &&
        given.value == s0.players[Find(s0.players, id).value].name
      ensures given.None? ==> AssignOrder(s0.players, ids + [id]) == AssignOrder(s0.players, ids)
    {
      var player := gameState.GetPlayerById(id);
      if player.None? || player.value.role.Some? {
        AssignSkip(s0, gameState.Abs(), ids, id, roleName);
        return None;
      }
      var role := MakeRole(roleName);
      ghost var k := Find(gameState.Abs().players, id).value;
      AssignGive(s0, gameState.Abs(), ids, id, roleName, role);
      gameState.SetRoleOf(player.value, k, Some(role));
      given := Some(player.value.name);
    }

    /**
     * `submitGroupAction`: the first living holder of the role acts for the
     * whole group. Without one, or when its `createAction` answers null,
     * the call fails and nothing changes. Otherwise one snapshot of the
     * state before the actions and every action join the undo stacks, the
     * actions run in order, each is logged with all living holders of the
     * role as its actors, and ACTION_SUBMITTED is broadcast. The only
     * object outside the engine's own state that may change is the acting
     * role's Witch, whose potions end as `createAction` leaves them; with
     * no holder no Witch changes at all.
     */
    method SubmitGroupAction(actingRoleName: string, payload: Payload) returns (res: ActionResult)
      requires Valid()
      modifies this, gameState, gameState.players, actionHistory
      modifies HolderPotions(gameState.Abs().players, FirstWith(gameState.Abs().players, actingRoleName, true))
      ensures Valid()
      ensures votingResults == old(votingResults)
      ensures FirstWith(old(gameState.Abs()).players, actingRoleName, true).None? ==>
        res == ActionResult(false, "No active player found with role " + actingRoleName + " to perform the action.") &&
        gameState.Abs() == old(gameState.Abs()) && actionHistory.entries == old(actionHistory.entries) &&
        gameHistory == old(gameHistory) &&
        undoActionHistory == old(undoActionHistory) && stateSnapshots == old(stateSnapshots)
      ensures FirstWith(old(gameState.Abs()).players, actingRoleName, true).Some? ==>
        var s0 := old(gameState.Abs());
        var k := FirstWith(s0.players, actingRoleName, true).value;
        var r := s0.players[k].role.value;
        var out := CreateActionOf(r, s0.players[k].id, payload, old(Flags(r)));
        var acts := out.0;
        Flags(r) == out.1 &&
        (acts.None? ==>
          res == ActionResult(false, "Invalid action or payload for the group.") &&
          gameState.Abs() == s0 && actionHistory.entries == old(actionHistory.entries) &&
          gameHistory == old(gameHistory) &&
          undoActionHistory == old(undoActionHistory) && stateSnapshots == old(stateSnapshots)) &&
        (acts.Some? ==>
          res == ActionResult(true, "Group action submitted and executed.") &&
          gameState.Abs() == ApplyAll(s0, acts.value) &&
          actionHistory.entries == old(actionHistory.entries) + GroupEntries(s0, acts.value, actingRoleName, k) &&
          gameHistory == old(gameHistory) + [ActionSubmitted(actingRoleName, TypeList(TypeNames(acts.value)))] &&
          stateSnapshots == old(stateSnapshots) + [TakeSnapshot(s0)] &&
          Acts(undoActionHistory) == Acts(old(undoActionHistory)) + acts.value)
    {
      var k := FirstWith(gameState.Abs().players, actingRoleName, true);
      if k.None? {
        return ActionResult(false, "No active player found with role " + actingRoleName + " to perform the action.");
      }
      res := GroupActAs(k.value, actingRoleName, payload);
    }

    /** `submitGroupAction` once the responsible player is found at seat `k`. */
    method GroupActAs(k: nat, actingRoleName: string, payload: Payload) returns (res: ActionResult)
      requires Valid() && k < |gameState.players| && gameState.Abs().players[k].isAlive
      requires RoleNameOf(gameState.Abs().players[k]) == Some(actingRoleName)
      modifies this, gameState, gameState.players, actionHistory, Potions(gameState.Abs().players[k].role.value)
      ensures Valid()
      ensures votingResults == old(votingResults)
      ensures
        var s0 := old(gameState.Abs());
        var r := s0.players[k].role.value;
        var out := CreateActionOf(r, s0.players[k].id, payload, old(Flags(r)));
        Flags(r) == out.1
      ensures
        var s0 := old(gameState.Abs());
        var r := s0.players[k].role.value;
        var acts := CreateActionOf(r, s0.players[k].id, payload, old(Flags(r))).0;
        (acts.None? ==>
          res == ActionResult(false, "Invalid action or payload for the group.") &&
          gameState.Abs() == s0 && actionHistory.entries == old(actionHistory.entries) &&
          gameHistory == old(gameHistory) &&
          undoActionHistory == old(undoActionHistory) && stateSnapshots == old(stateSnapshots)) &&
        (acts.Some? ==>
          res == ActionResult(true, "Group action submitted and executed.") &&
          gameState.Abs() == ApplyAll(s0, acts.value) &&
          actionHistory.entries == old(actionHistory.entries) + GroupEntries(s0, acts.value, actingRoleName, k) &&
          gameHistory == old(gameHistory) + [ActionSubmitted(actingRoleName, TypeList(TypeNames(acts.value)))] &&
          stateSnapshots == old(stateSnapshots) + [TakeSnapshot(s0)] &&
          Acts(undoActionHistory) == Acts(old(undoActionHistory)) + acts.value)
    {
      ghost var s0 := gameState.Abs();
      ghost var r := s0.players[k].role.value;
      ghost var out := CreateActionOf(r, s0.players[k].id, payload, Flags(r)).0;
      var actions := CreateFor(k, payload);
      if actions.None? {
        return ActionResult(false, "Invalid action or payload for the group.");
      }
      SubmitCommands(actions.value, actingRoleName, k, out.value, WitchOf(r));
      res := ActionResult(true, "Group action submitted and executed.");
    }

    /**
     * The success branch of `submitGroupAction`: a snapshot of the state
     * before the actions and the commands join the undo stacks, the group
     * runs, and ACTION_SUBMITTED is broadcast.
     */
    method SubmitCommands(cmds: seq<Command>, name: string, ghost k: nat, ghost acts: seq<Action>, ghost w: Option<Witch>)
      requires Valid() && Commanded(cmds, acts) && NoShoot(acts) && |acts| > 0
      requires k < |gameState.players| && gameState.Abs().players[k].isAlive
      requires RoleNameOf(gameState.Abs().players[k]) == Some(name)
      modifies this, gameState, gameState.players, actionHistory, set i | 0 <= i < |cmds| :: cmds[i]
      ensures Valid()
      ensures votingResults == old(votingResults)
      ensures gameState.Abs() == ApplyAll(old(gameState.Abs()), acts)
      ensures actionHistory.entries == old(actionHistory.entries) + GroupEntries(old(gameState.Abs()), acts, name, k)
      ensures gameHistory == old(gameHistory) + [ActionSubmitted(name, TypeList(TypeNames(acts)))]
      ensures stateSnapshots == old(stateSnapshots) + [TakeSnapshot(old(gameState.Abs()))]
      ensures Acts(undoActionHistory) == Acts(old(undoActionHistory)) + acts
      ensures w.Some? ==> w.value.hasHealPotion == old(w.value.hasHealPotion) && w.value.hasPoisonPotion == old(w.value.hasPoisonPotion)
    {
      ghost var potions := if w.Some? then (w.value.hasHealPotion, w.value.hasPoisonPotion) else (false, false);
      CarriedActs(cmds, acts);
      PushUndo(cmds, acts);
      assert w.Some? ==> (w.value.hasHealPotion, w.value.hasPoisonPotion) == potions;
      assert forall i :: 0 <= i < |cmds| ==> cmds[i] as object != this;
      RunGroupApart(cmds, name, k, acts, w);
      Broadcast(ActionSubmitted(name, TypeList(TypeNames(Acts(cmds)))));
    }

    /** `RunGroup`, which leaves every Witch alone, in particular `w`. */
    method RunGroupApart(cmds: seq<Command>, name: string, ghost k: nat, ghost acts: seq<Action>, ghost w: Option<Witch>)
      requires gameState.Valid() && Commanded(cmds, acts) && NoShoot(acts)
      requires k < |gameState.players| && gameState.Abs().players[k].isAlive
      requires RoleNameOf(gameState.Abs().players[k]) == Some(name)
      modifies gameState, gameState.players, actionHistory, set i | 0 <= i < |cmds| :: cmds[i]
      ensures gameState.Valid()
      ensures gameState.Abs() == ApplyAll(old(gameState.Abs()), acts)
      ensures actionHistory.entries == old(actionHistory.entries) + GroupEntries(old(gameState.Abs()), acts, name, k)
      ensures w.Some? ==> w.value.hasHealPotion == old(w.value.hasHealPotion) && w.value.hasPoisonPotion == old(w.value.hasPoisonPotion)
    {
      assert w.Some? ==> forall i :: 0 <= i < |cmds| ==> cmds[i] as object != w.value;
      assert w.Some? ==> forall i :: 0 <= i < |gameState.players| ==> gameState.players[i] as object != w.value;
      RunGroup(cmds, name, k, acts);
    }

    /** The undo bookkeeping of `submitGroupAction`: one snapshot of the state, then every command. */
    method PushUndo(cmds: seq<Command>, ghost acts: seq<Action>)
      requires Valid() && Acts(cmds) == acts && |acts| > 0
      modifies this
      ensures Valid()
      ensures (immediateActionQueue, gameHistory, votingResults) == old((immediateActionQueue, gameHistory, votingResults))
      ensures stateSnapshots == old(stateSnapshots) + [TakeSnapshot(gameState.Abs())]
      ensures Acts(undoActionHistory) == Acts(old(undoActionHistory)) + acts
      ensures gameState.Abs() == old(gameState.Abs())
    {
      var snap := gameState.CreateSnapshot();
      stateSnapshots := stateSnapshots + [snap];
      assert Acts(undoActionHistory + cmds) == Acts(undoActionHistory) + acts;
      undoActionHistory := undoActionHistory + cmds;
    }

    /** The loop of `submitGroupAction`: each action runs, then is logged with the living holders of the role. */
    method RunGroup(cmds: seq<Command>, name: string, ghost k: nat, ghost acts: seq<Action>)
      requires gameState.Valid() && Commanded(cmds, acts) && NoShoot(acts)
      requires k < |gameState.players| && gameState.Abs().players[k].isAlive
      requires RoleNameOf(gameState.Abs().players[k]) == Some(name)
      modifies gameState, gameState.players, actionHistory, set i | 0 <= i < |cmds| :: cmds[i]
      ensures gameState.Valid()
      ensures gameState.Abs() == ApplyAll(old(gameState.Abs()), acts)
      ensures actionHistory.entries == old(actionHistory.entries) + GroupEntries(old(gameState.Abs()), acts, name, k)
    {
      ghost var s0 := gameState.Abs();
      ghost var h0 := actionHistory.entries;
      ghost var pre: seq<Action> := [];
      for n := 0 to |cmds|
        invariant gameState.Valid()
        invariant pre == acts[..n] && NoShoot(pre)
        invariant gameState.Abs() == ApplyAll(s0, pre)
        invariant actionHistory.entries == h0 + GroupEntries(s0, pre, name, k)
        invariant forall i :: n <= i < |cmds| ==> cmds[i].Valid()
      {
        GroupPass(cmds, n, name, s0, h0, acts, pre, k);
        pre := pre + [acts[n]];
      }
      assert acts[..|cmds|] == acts;
    }

    /** Pass `n` of the loop of `submitGroupAction`: the `n`th action runs and is logged. */
    method GroupPass(cmds: seq<Command>, n: nat, name: string, ghost s0: State, ghost h0: seq<HistoryEntry>,
                     ghost acts: seq<Action>, ghost pre: seq<Action>, ghost k: nat)
      requires n < |cmds| && Carries(cmds, acts) && NoShoot(acts)
      requires k < |s0.players| && s0.players[k].isAlive && RoleNameOf(s0.players[k]) == Some(name)
      requires gameState.Valid()
      requires pre == acts[..n] && NoShoot(pre)
      requires gameState.Abs() == ApplyAll(s0, pre)
      requires actionHistory.entries == h0 + GroupEntries(s0, pre, name, k)
      requires forall i :: n <= i < |cmds| ==> cmds[i].Valid()
      modifies gameState, gameState.players, actionHistory, cmds[n]
      ensures gameState.Valid()
      ensures pre + [acts[n]] == acts[..n + 1] && NoShoot(pre + [acts[n]])
      ensures gameState.Abs() == ApplyAll(s0, pre + [acts[n]])
      ensures actionHistory.entries == h0 + GroupEntries(s0, pre + [acts[n]], name, k)
      ensures forall i :: n + 1 <= i < |cmds| ==> cmds[i].Valid()
    {
      PrefixSnoc(acts, pre, n);
      GroupStep(cmds[n], name, s0, h0, pre, k);
    }

    /** One pass of the loop of `submitGroupAction`: the next action runs and is logged. */
    method GroupStep(cmd: Command, name: string, ghost s0: State, ghost h0: seq<HistoryEntry>, ghost pre: seq<Action>, ghost k: nat)
      requires gameState.Valid() && cmd.Valid() && NoShoot(pre + [cmd.action])
      requires k < |s0.players| && s0.players[k].isAlive && RoleNameOf(s0.players[k]) == Some(name)
      requires gameState.Abs() == ApplyAll(s0, pre)
      requires NoShoot(pre) && actionHistory.entries == h0 + GroupEntries(s0, pre, name, k)
      modifies cmd, gameState, gameState.players, actionHistory
      ensures gameState.Valid()
      ensures gameState.Abs() == ApplyAll(s0, pre + [cmd.action])
      ensures actionHistory.entries == h0 + GroupEntries(s0, pre + [cmd.action], name, k)
    {
      ExecuteNext(cmd, s0, pre);
      LogStep(cmd.action, name, s0, h0, pre, k);
    }

    /** Runs the next command of a submission against the state; the action log is untouched. */
    method ExecuteNext(cmd: Command, ghost s0: State, ghost pre: seq<Action>)
      requires gameState.Valid() && cmd.Valid()
      requires gameState.Abs() == ApplyAll(s0, pre)
      modifies cmd, gameState, gameState.players
      ensures gameState.Valid()
      ensures gameState.Abs() == ApplyAll(s0, pre + [cmd.action])
      ensures actionHistory.entries == old(actionHistory.entries)
    {
      assert actionHistory as object != cmd && actionHistory as object != gameState;
      assert forall i :: 0 <= i < |gameState.players| ==> gameState.players[i] as object != actionHistory;
      cmd.Execute(gameState);
      ApplyAllSnoc(s0, pre, cmd.action);
    }

    /** Logs one executed group action, extending the entries by the next `GroupEntries` entry. */
    method LogStep(a: Action, name: string, ghost s0: State, ghost h0: seq<HistoryEntry>, ghost pre: seq<Action>, ghost k: nat)
      requires NoShoot(pre + [a]) && NoShoot(pre)
      requires k < |s0.players| && s0.players[k].isAlive && RoleNameOf(s0.players[k]) == Some(name)
      requires gameState.Abs() == ApplyAll(s0, pre + [a])
      requires actionHistory.entries == h0 + GroupEntries(s0, pre, name, k)
      requires gameState.Valid()
      modifies actionHistory
      ensures gameState.Valid() && gameState.Abs() == old(gameState.Abs())
      ensures actionHistory.entries == h0 + GroupEntries(s0, pre + [a], name, k)
    {
      ghost var t := gameState.Abs();
      ActingSeatStays(s0, pre + [a], name, k);
      LogGroupEntry(a, name);
      GroupLogExtends(s0, pre, a, name, k, h0, t, actionHistory.entries);
    }

    /** The `addActionEntry` call of `submitGroupAction`: the actors are the living holders of the role. */
    method LogGroupEntry(a: Action, name: string)
      requires |Group(gameState.Abs(), name)| > 0
      modifies actionHistory
      ensures gameState.Abs() == old(gameState.Abs()) && gameState.Valid() == old(gameState.Valid())
      ensures actionHistory.entries ==
        old(actionHistory.entries) + [ActionEntryOf(a, Group(gameState.Abs(), name), gameState.Abs())]
    {
      ghost var s := gameState.Abs();
      var living := gameState.GetLivingPlayers();
      var group := PlayersWithRole(living, name);
      assert Recs(group) == Group(s, name);
      actionHistory.AddActionEntry(a, group, gameState);
      assert gameState.Abs() == s;
    }

    /**
     * `submitImmediateAction`: the first living holder of the role acts,
     * else the first dead one (a Hunter shooting after death). Without
     * either, or when `createAction` answers null, the call fails and
     * nothing changes. Otherwise each action runs, is logged with the
     * acting player alone as its actor and is broadcast; a target that was
     * alive before and is dead after is broadcast as shot; the queue is
     * drained and a winner ends the game. The undo stacks are not touched.
     * As for `submitGroupAction`, only the acting role's Witch can spend a
     * potion, exactly as `createAction` spends it.
     */
    method SubmitImmediateAction(actingRoleName: string, payload: Payload) returns (res: ActionResult)
      requires Valid()
      modifies this, gameState, gameState.players, actionHistory
      modifies HolderPotions(gameState.Abs().players, ImmediateActor(gameState.Abs().players, actingRoleName))
      ensures Valid()
      ensures votingResults == old(votingResults)
      ensures undoActionHistory == old(undoActionHistory) && stateSnapshots == old(stateSnapshots)
      ensures ImmediateActor(old(gameState.Abs()).players, actingRoleName).None? ==>
        res == ActionResult(false, "No active or eligible player found with role " + actingRoleName + ".") &&
        gameState.Abs() == old(gameState.Abs()) && actionHistory.entries == old(actionHistory.entries) &&
        gameHistory == old(gameHistory)
      ensures ImmediateActor(old(gameState.Abs()).players, actingRoleName).Some? ==>
        var s0 := old(gameState.Abs());
        var k := ImmediateActor(s0.players, actingRoleName).value;
        var r := s0.players[k].role.value;
        var out := CreateActionOf(r, s0.players[k].id, payload, old(Flags(r)));
        var acts := out.0;
        Flags(r) == out.1 &&
        (acts.None? ==>
          res == ActionResult(false, "Invalid action for immediate execution.") &&
          gameState.Abs() == s0 && actionHistory.entries == old(actionHistory.entries) &&
          gameHistory == old(gameHistory)) &&
        (acts.Some? ==>
          var t := ApplyAll(s0, acts.value);
          res == ActionResult(true, "Immediate action executed.") &&
          gameState.Abs() == Concluded(t) &&
          actionHistory.entries == old(actionHistory.entries) + SoloEntries(s0, acts.value, k) + GameEndLog(t) &&
          gameHistory == old(gameHistory) + SoloEvents(actingRoleName, acts.value) +
            ShotEvents(s0, t, TargetSeat(s0, payload)))
    {
      ghost var s0 := gameState.Abs();
      var k := FirstWith(gameState.Abs().players, actingRoleName, true);
      if k.None? {
        k := FirstWith(gameState.Abs().players, actingRoleName, false);
        if k.None? {
          return ActionResult(false, "No active or eligible player found with role " + actingRoleName + ".");
        }
      }
      assert k == ImmediateActor(s0.players, actingRoleName);
      res := ActAs(k.value, actingRoleName, payload);
    }

    /** `submitImmediateAction` once the acting player is found at seat `k`. */
    method ActAs(k: nat, actingRoleName: string, payload: Payload) returns (res: ActionResult)
      requires Valid() && k < |gameState.players| && gameState.players[k].role.Some?
      modifies this, gameState, gameState.players, actionHistory, Potions(gameState.Abs().players[k].role.value)
      ensures Valid()
      ensures votingResults == old(votingResults)
      ensures undoActionHistory == old(undoActionHistory) && stateSnapshots == old(stateSnapshots)
      ensures
        var s0 := old(gameState.Abs());
        var r := s0.players[k].role.value;
        var out := CreateActionOf(r, s0.players[k].id, payload, old(Flags(r)));
        Flags(r) == out.1
      ensures
        var s0 := old(gameState.Abs());
        var r := s0.players[k].role.value;
        var acts := CreateActionOf(r, s0.players[k].id, payload, old(Flags(r))).0;
        (acts.None? ==>
          res == ActionResult(false, "Invalid action for immediate execution.") &&
          gameState.Abs() == s0 && actionHistory.entries == old(actionHistory.entries) &&
          gameHistory == old(gameHistory)) &&
        (acts.Some? ==>
          var t := ApplyAll(s0, acts.value);
          res == ActionResult(true, "Immediate action executed.") &&
          gameState.Abs() == Concluded(t) &&
          actionHistory.entries == old(actionHistory.entries) + SoloEntries(s0, acts.value, k) + GameEndLog(t) &&
          gameHistory == old(gameHistory) + SoloEvents(actingRoleName, acts.value) +
            ShotEvents(s0, t, TargetSeat(s0, payload)))
    {
      ghost var s0 := gameState.Abs();
      ghost var r := s0.players[k].role.value;
      ghost var out := CreateActionOf(r, s0.players[k].id, payload, Flags(r)).0;
      var actions := CreateFor(k, payload);
      if actions.None? {
        return ActionResult(false, "Invalid action for immediate execution.");
      }
      RunImmediate(actions.value, actingRoleName, k, payload, out.value, WitchOf(r));
      res := ActionResult(true, "Immediate action executed.");
    }

    /**
     * `createAction` of the role held at seat `k`, for that player: the
     * game state is untouched and only that role's own Witch, if any, can
     * spend a potion.
     */
    method CreateFor(k: nat, payload: Payload) returns (actions: Option<seq<Command>>)
      requires gameState.Valid() && k < |gameState.players| && gameState.players[k].role.Some?
      modifies Potions(gameState.Abs().players[k].role.value)
      ensures gameState.Valid() && gameState.Abs() == old(gameState.Abs())
      ensures
        var s0 := old(gameState.Abs());
        var r := s0.players[k].role.value;
        var out := CreateActionOf(r, s0.players[k].id, payload, old(Flags(r)));
        (actions.Some? <==> out.0.Some?) && Flags(r) == out.1 &&
        (WitchOf(r).Some? ==> allocated(WitchOf(r).value)) &&
        (actions.Some? ==> Commanded(actions.value, out.0.value)) &&
        (actions.Some? ==> forall i :: 0 <= i < |actions.value| ==> fresh(actions.value[i]))
    {
      ghost var s0 := gameState.Abs();
      var responsiblePlayer := gameState.players[k];
      assert responsiblePlayer.Rec() == s0.players[k];
      actions := CreateAction(responsiblePlayer.role.value, responsiblePlayer, payload);
      assert gameState.Abs() == s0;
      assert WitchOf(responsiblePlayer.role.value).Some? ==> allocated(WitchOf(responsiblePlayer.role.value).value);
    }

    /** The target player of an immediate action, looked up only for a truthy id. */
    function TargetPlayer(payload: Payload): (p: Option<Player>)
      reads gameState, gameState.players
      ensures p.Some? <==> TargetSeat(gameState.Abs(), payload).Some?
      ensures p.Some? ==> p.value == gameState.players[TargetSeat(gameState.Abs(), payload).value]
    {
      var targetId := if payload.JStr? then Some(payload.s) else OrNull(Prop(payload, "targetId"));
      if TruthyId(targetId) then gameState.GetPlayerById(targetId.value) else None
    }

    /**
     * The success branch of `submitImmediateAction`: the actions run, the
     * target's death is broadcast, the queue is drained and the win check
     * runs.
     */
    method RunImmediate(cmds: seq<Command>, name: string, k: nat, payload: Payload, ghost acts: seq<Action>, ghost w: Option<Witch>)
      requires Valid() && Commanded(cmds, acts) && k < |gameState.players|
      modifies this, gameState, gameState.players, actionHistory, set i | 0 <= i < |cmds| :: cmds[i]
      ensures Valid()
      ensures votingResults == old(votingResults)
      ensures undoActionHistory == old(undoActionHistory) && stateSnapshots == old(stateSnapshots)
      ensures gameState.Abs() == Concluded(ApplyAll(old(gameState.Abs()), acts))
      ensures actionHistory.entries == old(actionHistory.entries) + SoloEntries(old(gameState.Abs()), acts, k) +
        GameEndLog(ApplyAll(old(gameState.Abs()), acts))
      ensures gameHistory == old(gameHistory) + SoloEvents(name, acts) +
        ShotEvents(old(gameState.Abs()), ApplyAll(old(gameState.Abs()), acts), TargetSeat(old(gameState.Abs()), payload))
      ensures w.Some? ==> w.value.hasHealPotion == old(w.value.hasHealPotion) && w.value.hasPoisonPotion == old(w.value.hasPoisonPotion)
    {
      ghost var s0 := gameState.Abs();
      var targetPlayer := TargetPlayer(payload);
      var targetWasAlive := targetPlayer.Some? && targetPlayer.value.isAlive;
      assert forall i :: 0 <= i < |cmds| ==> cmds[i] as object != this;
      RunSoloApart(cmds, name, k, acts, w);
      ghost var t := gameState.Abs();
      assert |IdsOf(t.players)| == |IdsOf(s0.players)|;
      Aftermath(targetPlayer, targetWasAlive, s0, TargetSeat(s0, payload), w);
    }

    /** `RunSolo`, which leaves every Witch alone, in particular `w`. */
    method RunSoloApart(cmds: seq<Command>, name: string, k: nat, ghost acts: seq<Action>, ghost w: Option<Witch>)
      requires Valid() && Commanded(cmds, acts) && k < |gameState.players|
      requires forall i :: 0 <= i < |cmds| ==> cmds[i] as object != this
      modifies this, gameState, gameState.players, actionHistory, set i | 0 <= i < |cmds| :: cmds[i]
      ensures Valid()
      ensures votingResults == old(votingResults)
      ensures undoActionHistory == old(undoActionHistory) && stateSnapshots == old(stateSnapshots)
      ensures gameState.Abs() == ApplyAll(old(gameState.Abs()), acts)
      ensures actionHistory.entries == old(actionHistory.entries) + SoloEntries(old(gameState.Abs()), acts, k)
      ensures gameHistory == old(gameHistory) + SoloEvents(name, acts)
      ensures w.Some? ==> w.value.hasHealPotion == old(w.value.hasHealPotion) && w.value.hasPoisonPotion == old(w.value.hasPoisonPotion)
    {
      assert w.Some? ==> forall i :: 0 <= i < |cmds| ==> cmds[i] as object != w.value;
      assert w.Some? ==> forall i :: 0 <= i < |gameState.players| ==> gameState.players[i] as object != w.value;
      RunSolo(cmds, name, k, acts);
    }

    /** After the loop of `submitImmediateAction`: the shot broadcast, the queue drain and the win check. */
    method Aftermath(targetPlayer: Option<Player>, targetWasAlive: bool, ghost s0: State, ghost seat: Option<nat>, ghost w: Option<Witch>)
      requires Valid() && |gameState.Abs().players| == |s0.players|
      requires seat.Some? <==> targetPlayer.Some?
      requires seat.Some? ==>
                 seat.value < |s0.players| && targetPlayer.value == gameState.players[seat.value] &&
                 targetWasAlive == s0.players[seat.value].isAlive
      modifies this, gameState, gameState.players, actionHistory
      ensures Valid()
      ensures votingResults == old(votingResults)
      ensures undoActionHistory == old(undoActionHistory) && stateSnapshots == old(stateSnapshots)
      ensures gameState.Abs() == Concluded(old(gameState.Abs()))
      ensures actionHistory.entries == old(actionHistory.entries) + GameEndLog(old(gameState.Abs()))
      ensures gameHistory == old(gameHistory) + ShotEvents(s0, old(gameState.Abs()), seat)
      ensures w.Some? ==> w.value.hasHealPotion == old(w.value.hasHealPotion) && w.value.hasPoisonPotion == old(w.value.hasPoisonPotion)
    {
      assert w.Some? ==> forall i :: 0 <= i < |gameState.players| ==> gameState.players[i] as object != w.value;
      BroadcastShot(targetPlayer, targetWasAlive, s0, seat);
      DrainQueue();
      ConcludeIfWon();
    }

    /** The PLAYER_DIED broadcast of `submitImmediateAction`, for a target that was alive and is dead now. */
    method BroadcastShot(targetPlayer: Option<Player>, targetWasAlive: bool, ghost s0: State, ghost seat: Option<nat>)
      requires Valid() && |gameState.Abs().players| == |s0.players|
      requires seat.Some? <==> targetPlayer.Some?
      requires seat.Some? ==>
                 seat.value < |s0.players| && targetPlayer.value == gameState.players[seat.value] &&
                 targetWasAlive == s0.players[seat.value].isAlive
      modifies this
      ensures Valid()
      ensures gameHistory == old(gameHistory) + ShotEvents(s0, gameState.Abs(), seat)
      ensures immediateActionQueue == old(immediateActionQueue) && votingResults == old(votingResults)
      ensures undoActionHistory == old(undoActionHistory) && stateSnapshots == old(stateSnapshots)
      ensures gameState.Abs() == old(gameState.Abs()) && actionHistory.entries == old(actionHistory.entries)
    {
      if targetPlayer.Some? && targetWasAlive && !targetPlayer.value.isAlive {
        Broadcast(PlayerDied(targetPlayer.value.id, Shot));
      }
    }

    /** `_processImmediateActions` between calls: the queue is empty, so nothing runs. */
    method DrainQueue()
      requires Valid()
      modifies this, gameState, gameState.players
      ensures Valid()
      ensures gameState.Abs() == old(gameState.Abs()) && actionHistory.entries == old(actionHistory.entries)
      ensures gameHistory == old(gameHistory) && votingResults == old(votingResults)
      ensures undoActionHistory == old(undoActionHistory) && stateSnapshots == old(stateSnapshots)
    {
      ghost var s := gameState.Abs();
      assert Acts(immediateActionQueue) == [];
      assert ApplyAll(s, []) == s;
      ProcessImmediateActions();
    }

    /** The win check of `submitImmediateAction`: a winner ends the game and GAME_ENDED is logged. */
    method ConcludeIfWon()
      requires Valid()
      modifies gameState, actionHistory
      ensures Valid()
      ensures gameState.Abs() == Concluded(old(gameState.Abs()))
      ensures actionHistory.entries == old(actionHistory.entries) + GameEndLog(old(gameState.Abs()))
    {
      var winner := CheckWinConditions(gameState.Abs());
      if winner.Some? {
        gameState.winner := winner;
        gameState.phase := Finished;
        actionHistory.AddGameEvent("GAME_ENDED", gameState, Some(GameEnded(winner.value)), None);
      }
    }

    /** The loop of `submitImmediateAction`: each action runs, is logged with the acting player, and is broadcast. */
    method RunSolo(cmds: seq<Command>, name: string, k: nat, ghost acts: seq<Action>)
      requires Valid() && Commanded(cmds, acts) && k < |gameState.players|
      requires forall i :: 0 <= i < |cmds| ==> cmds[i] as object != this
      modifies this, gameState, gameState.players, actionHistory, set i | 0 <= i < |cmds| :: cmds[i]
      ensures Valid()
      ensures votingResults == old(votingResults)
      ensures undoActionHistory == old(undoActionHistory) && stateSnapshots == old(stateSnapshots)
      ensures gameState.Abs() == ApplyAll(old(gameState.Abs()), acts)
      ensures actionHistory.entries == old(actionHistory.entries) + SoloEntries(old(gameState.Abs()), acts, k)
      ensures gameHistory == old(gameHistory) + SoloEvents(name, acts)
    {
      ghost var s0 := gameState.Abs();
      ghost var h0 := actionHistory.entries;
      ghost var g0 := gameHistory;
      ghost var pre: seq<Action> := [];
      for n := 0 to |cmds|
        invariant Valid()
        invariant pre == acts[..n]
        invariant gameState.Abs() == ApplyAll(s0, pre)
        invariant actionHistory.entries == h0 + SoloEntries(s0, pre, k)
        invariant gameHistory == g0 + SoloEvents(name, pre)
        invariant votingResults == old(votingResults)
        invariant undoActionHistory == old(undoActionHistory) && stateSnapshots == old(stateSnapshots)
        invariant forall i :: n <= i < |cmds| ==> cmds[i].Valid()
      {
        SoloPass(cmds, n, name, k, s0, h0, g0, acts, pre);
        pre := pre + [acts[n]];
      }
      assert acts[..|cmds|] == acts;
    }

    /** Pass `n` of the loop of `submitImmediateAction`. */
    method SoloPass(cmds: seq<Command>, n: nat, name: string, k: nat, ghost s0: State, ghost h0: seq<HistoryEntry>,
                    ghost g0: seq<GameEvent>, ghost acts: seq<Action>, ghost pre: seq<Action>)
      requires n < |cmds| && Carries(cmds, acts) && k < |s0.players|
      requires forall i :: 0 <= i < |cmds| ==> cmds[i] as object != this
      requires Valid() && pre == acts[..n]
      requires gameState.Abs() == ApplyAll(s0, pre)
      requires actionHistory.entries == h0 + SoloEntries(s0, pre, k)
      requires gameHistory == g0 + SoloEvents(name, pre)
      requires forall i :: n <= i < |cmds| ==> cmds[i].Valid()
      modifies this, gameState, gameState.players, actionHistory, cmds[n]
      ensures Valid() && pre + [acts[n]] == acts[..n + 1]
      ensures gameState.Abs() == ApplyAll(s0, pre + [acts[n]])
      ensures actionHistory.entries == h0 + SoloEntries(s0, pre + [acts[n]], k)
      ensures gameHistory == g0 + SoloEvents(name, pre + [acts[n]])
      ensures votingResults == old(votingResults)
      ensures undoActionHistory == old(undoActionHistory) && stateSnapshots == old(stateSnapshots)
      ensures forall i :: n + 1 <= i < |cmds| ==> cmds[i].Valid()
    {
      var cmd := cmds[n];
      SnocPrefix(acts, pre, n);
      SoloRun(cmds, n, k, s0, h0, acts, pre);
      Announce(name, pre, cmd.action, g0, cmds, n + 1);
    }

    /** The executing half of a pass of the loop of `submitImmediateAction`. */
    method SoloRun(cmds: seq<Command>, n: nat, k: nat, ghost s0: State, ghost h0: seq<HistoryEntry>,
                   ghost acts: seq<Action>, ghost pre: seq<Action>)
      requires n < |cmds| && Carries(cmds, acts) && k < |s0.players|
      requires gameState.Valid()
      requires gameState.Abs() == ApplyAll(s0, pre)
      requires actionHistory.entries == h0 + SoloEntries(s0, pre, k)
      requires forall i :: n <= i < |cmds| ==> cmds[i].Valid()
      modifies gameState, gameState.players, actionHistory, cmds[n]
      ensures gameState.Valid()
      ensures gameState.Abs() == ApplyAll(s0, pre + [acts[n]])
      ensures actionHistory.entries == h0 + SoloEntries(s0, pre + [acts[n]], k)
      ensures forall i :: n + 1 <= i < |cmds| ==> cmds[i].Valid()
    {
      SoloStep(cmds[n], k, s0, h0, pre);
    }

    /** The broadcast half of a pass of the loop of `submitImmediateAction`. */
    method Announce(name: string, ghost pre: seq<Action>, a: Action, ghost g0: seq<GameEvent>,
                    ghost cmds: seq<Command>, ghost m: nat)
      requires Valid() && gameHistory == g0 + SoloEvents(name, pre)
      requires forall i :: m <= i < |cmds| ==> cmds[i].Valid()
      modifies this
      ensures forall i :: m <= i < |cmds| ==> cmds[i].Valid()
      ensures Valid() && gameHistory == g0 + SoloEvents(name, pre + [a])
      ensures immediateActionQueue == old(immediateActionQueue) && votingResults == old(votingResults)
      ensures undoActionHistory == old(undoActionHistory) && stateSnapshots == old(stateSnapshots)
      ensures gameState.Abs() == old(gameState.Abs()) && actionHistory.entries == old(actionHistory.entries)
    {
      SoloEventsSnoc(name, pre, a);
      Broadcast(ActionSubmitted(name, OneType(TypeName(a))));
    }

    /** One pass of the loop of `submitImmediateAction`: the next action runs and is logged. */
    method SoloStep(cmd: Command, k: nat, ghost s0: State, ghost h0: seq<HistoryEntry>, ghost pre: seq<Action>)
      requires gameState.Valid() && cmd.Valid() && k < |s0.players|
      requires gameState.Abs() == ApplyAll(s0, pre)
      requires actionHistory.entries == h0 + SoloEntries(s0, pre, k)
      modifies cmd, gameState, gameState.players, actionHistory
      ensures gameState.Valid()
      ensures gameState.Abs() == ApplyAll(s0, pre + [cmd.action])
      ensures actionHistory.entries == h0 + SoloEntries(s0, pre + [cmd.action], k)
    {
      ExecuteNext(cmd, s0, pre);
      LogSolo(cmd.action, k, s0, h0, pre);
    }

    /** Logs one executed immediate action, extending the entries by the next `SoloEntries` entry. */
    method LogSolo(a: Action, k: nat, ghost s0: State, ghost h0: seq<HistoryEntry>, ghost pre: seq<Action>)
      requires k < |s0.players| && gameState.Valid()
      requires gameState.Abs() == ApplyAll(s0, pre + [a])
      requires actionHistory.entries == h0 + SoloEntries(s0, pre, k)
      modifies actionHistory
      ensures gameState.Valid() && gameState.Abs() == old(gameState.Abs())
      ensures actionHistory.entries == h0 + SoloEntries(s0, pre + [a], k)
    {
      ghost var t := gameState.Abs();
      assert |IdsOf(t.players)| == |t.players|;
      var responsiblePlayer := gameState.players[k];
      actionHistory.AddActionEntry(a, [responsiblePlayer], gameState);
      assert Recs([responsiblePlayer]) == [t.players[k]];
      SoloLogExtends(s0, pre, a, k, h0, t, actionHistory.entries);
    }

    /** `startVotingPhase`: only the discussion moves on to the vote; any other phase is refused unchanged. */
    method StartVotingPhase() returns (res: ActionResult)
      requires Valid()
      modifies this, gameState
      ensures Valid()
      ensures old(gameState.phase) != DayDiscuss ==>
        res == ActionResult(false, "Not in discussion phase") &&
        gameState.Abs() == old(gameState.Abs()) && gameHistory == old(gameHistory)
      ensures old(gameState.phase) == DayDiscuss ==>
        res == ActionResult(true, "Voting phase started.") &&
        gameState.Abs() == old(gameState.Abs()).(phase := DayVote) &&
        gameHistory == old(gameHistory) + [PhaseChanged(DayVote, gameState.dayNumber)]
      ensures (votingResults, undoActionHistory, stateSnapshots) == old((votingResults, undoActionHistory, stateSnapshots))
    {
      if gameState.phase != DayDiscuss {
        return ActionResult(false, "Not in discussion phase");
      }
      gameState.phase := DayVote;
      Broadcast(PhaseChanged(DayVote, gameState.dayNumber));
      res := ActionResult(true, "Voting phase started.");
    }

    /**
     * `resolveNight`: outside the night it fails and changes nothing.
     * Otherwise the living players marked for death die and lose the mark,
     * NIGHT_ENDED is logged with them, each death is broadcast, reactions
     * are drained, and then either a winner ends the game or the next day's
     * discussion begins; last, the night's records are reset.
     */
    method ResolveNight() returns (res: ActionResult)
      requires Valid()
      modifies this, gameState, gameState.players, actionHistory
      ensures Valid()
      ensures votingResults == old(votingResults)
      ensures undoActionHistory == old(undoActionHistory) && stateSnapshots == old(stateSnapshots)
      ensures old(gameState.phase) != Night ==>
        res == ActionResult(false, "Not in night phase") &&
        gameState.Abs() == old(gameState.Abs()) && actionHistory.entries == old(actionHistory.entries) &&
        gameHistory == old(gameHistory)
      ensures old(gameState.phase) == Night ==>
        res == ActionResult(true, "Night ended, starting day discussion.") &&
        gameState.Abs() == NightEnd(old(gameState.Abs())) &&
        actionHistory.entries == old(actionHistory.entries) + NightLog(old(gameState.Abs())) &&
        gameHistory == old(gameHistory) + NightEvents(old(gameState.Abs()))
    {
      if gameState.phase != Night {
        return ActionResult(false, "Not in night phase");
      }
      EndNight();
      res := ActionResult(true, "Night ended, starting day discussion.");
    }

    /** The night phase's work in `resolveNight`. */
    method EndNight()
      requires Valid()
      modifies this, gameState, gameState.players, actionHistory
      ensures Valid()
      ensures votingResults == old(votingResults)
      ensures undoActionHistory == old(undoActionHistory) && stateSnapshots == old(stateSnapshots)
      ensures gameState.Abs() == NightEnd(old(gameState.Abs()))
      ensures actionHistory.entries == old(actionHistory.entries) + NightLog(old(gameState.Abs()))
      ensures gameHistory == old(gameHistory) + NightEvents(old(gameState.Abs()))
    {
      ghost var s0 := gameState.Abs();
      DawnAndDay();
      gameState.ResetNightlyActions();
      assert gameState.Abs() == ResetNightly(NewDay(AtDawn(s0)));
    }

    /** `resolveNight` up to the reset of the night's records. */
    method DawnAndDay()
      requires Valid()
      modifies this, gameState, gameState.players, actionHistory
      ensures Valid()
      ensures votingResults == old(votingResults)
      ensures undoActionHistory == old(undoActionHistory) && stateSnapshots == old(stateSnapshots)
      ensures gameState.Abs() == NewDay(AtDawn(old(gameState.Abs())))
      ensures actionHistory.entries == old(actionHistory.entries) + NightLog(old(gameState.Abs()))
      ensures gameHistory == old(gameHistory) + NightEvents(old(gameState.Abs()))
    {
      ghost var s0 := gameState.Abs();
      ghost var h0 := actionHistory.entries;
      ghost var g0 := gameHistory;
      Daybreak();
      ghost var h1 := actionHistory.entries;
      ghost var g1 := gameHistory;
      StartDay();
      SplitLog(h0, h1, actionHistory.entries, NightEndedLog(s0), NewDayLog(AtDawn(s0)));
      SplitLog(g0, g1, gameHistory, DeathEvents(DyingIds(s0.players), Killed), NewDayEvents(AtDawn(s0)));
    }

    /** The dawn of `resolveNight`, up to the win check. */
    method Daybreak()
      requires Valid()
      modifies this, gameState, gameState.players, actionHistory
      ensures Valid()
      ensures votingResults == old(votingResults)
      ensures undoActionHistory == old(undoActionHistory) && stateSnapshots == old(stateSnapshots)
      ensures gameState.Abs() == AtDawn(old(gameState.Abs()))
      ensures actionHistory.entries == old(actionHistory.entries) + NightEndedLog(old(gameState.Abs()))
      ensures gameHistory == old(gameHistory) + DeathEvents(DyingIds(old(gameState.Abs()).players), Killed)
    {
      ghost var s0 := gameState.Abs();
      var deadPlayersToday := KillMarked();
      actionHistory.AddGameEvent("NIGHT_ENDED", gameState,
        Some(NightEnded(deadPlayersToday, |deadPlayersToday|, gameState.dayNumber)), None);
      BroadcastDeaths(deadPlayersToday, Killed);
      DrainQueue();
    }

    /** The dawn of `resolveNight`: each living player marked for death dies and loses the mark; their ids, in seating order. */
    method KillMarked() returns (dead: seq<PlayerId>)
      requires gameState.Valid()
      modifies gameState.players
      ensures gameState.Valid() && gameState.Abs() == AtDawn(old(gameState.Abs()))
      ensures dead == DyingIds(old(gameState.Abs()).players)
    {
      ghost var s0 := gameState.Abs();
      dead := [];
      for j := 0 to |gameState.players|
        invariant gameState.Valid()
        invariant gameState.Abs() == s0.(players := DawnPrefix(s0.players, j))
        invariant dead == DyingIds(s0.players[..j])
      {
        dead := DawnSeat(j, s0, dead);
      }
      DawnPrefixAll(s0.players);
    }

    /** One seat at dawn. */
    method DawnSeat(j: nat, ghost s0: State, dead0: seq<PlayerId>) returns (dead: seq<PlayerId>)
      requires gameState.Valid() && j < |gameState.players|
      requires gameState.Abs() == s0.(players := DawnPrefix(s0.players, j))
      requires dead0 == DyingIds(s0.players[..j])
      modifies gameState.players
      ensures gameState.Valid() && gameState.Abs() == s0.(players := DawnPrefix(s0.players, j + 1))
      ensures dead == DyingIds(s0.players[..j + 1])
    {
      var player := gameState.players[j];
      DawnPrefixStep(s0.players, j);
      DyingIdsSnoc(s0.players, j);
      assert player.Rec() == s0.players[j];
      if player.isMarkedForDeath && player.isAlive {
        gameState.SetAliveOf(player, j, false);
        gameState.SetMarkOf(player, j, false);
        dead := dead0 + [player.id];
      } else {
        dead := dead0;
      }
    }

    /** One PLAYER_DIED broadcast per id, in order. */
    method BroadcastDeaths(ids: seq<PlayerId>, cause: DeathCause)
      requires Valid()
      modifies this
      ensures Valid()
      ensures gameHistory == old(gameHistory) + DeathEvents(ids, cause)
      ensures immediateActionQueue == old(immediateActionQueue) && votingResults == old(votingResults)
      ensures undoActionHistory == old(undoActionHistory) && stateSnapshots == old(stateSnapshots)
      ensures gameState.Abs() == old(gameState.Abs()) && actionHistory.entries == old(actionHistory.entries)
    {
      for i := 0 to |ids|
        invariant Valid()
        invariant gameHistory == old(gameHistory) + DeathEvents(ids[..i], cause)
        invariant immediateActionQueue == old(immediateActionQueue) && votingResults == old(votingResults)
        invariant undoActionHistory == old(undoActionHistory) && stateSnapshots == old(stateSnapshots)
        invariant gameState.Abs() == old(gameState.Abs()) && actionHistory.entries == old(actionHistory.entries)
      {
        DeathEventsSnoc(ids, i, cause);
        Broadcast(PlayerDied(ids[i], cause));
      }
      assert ids[..|ids|] == ids;
    }

    /** The end of `resolveNight`: a winner ends the game, or the day number goes up and the discussion begins. */
    method StartDay()
      requires Valid()
      modifies this, gameState, actionHistory
      ensures Valid()
      ensures votingResults == old(votingResults)
      ensures undoActionHistory == old(undoActionHistory) && stateSnapshots == old(stateSnapshots)
      ensures gameState.Abs() == NewDay(old(gameState.Abs()))
      ensures actionHistory.entries == old(actionHistory.entries) + NewDayLog(old(gameState.Abs()))
      ensures gameHistory == old(gameHistory) + NewDayEvents(old(gameState.Abs()))
    {
      var winner := CheckWinConditions(gameState.Abs());
      if winner.Some? {
        gameState.winner := winner;
        gameState.phase := Finished;
        actionHistory.AddGameEvent("GAME_ENDED", gameState, Some(GameEnded(winner.value)), None);
      } else {
        gameState.dayNumber := gameState.dayNumber + 1;
        gameState.phase := DayDiscuss;
        actionHistory.AddGameEvent("DAY_STARTED", gameState, Some(DayStarted(gameState.dayNumber)), None);
        Broadcast(PhaseChanged(DayDiscuss, gameState.dayNumber));
      }
    }

    /**
     * `resolveVoting`, which checks no phase: VOTING_ENDED is logged with
     * the voted-out player (none for a falsy or unknown id); that player
     * dies, the death is broadcast and reactions are drained; then either
     * a winner ends the game or night falls on the same day. The vote
     * tally is cleared and the call always succeeds.
     */
    method ResolveVoting(votedPlayerId: Option<PlayerId>) returns (res: ActionResult)
      requires Valid()
      modifies this, gameState, gameState.players, actionHistory
      ensures Valid()
      ensures res == ActionResult(true, "Voting processed.")
      ensures votingResults == []
      ensures undoActionHistory == old(undoActionHistory) && stateSnapshots == old(stateSnapshots)
      ensures
        var s0 := old(gameState.Abs());
        var v := VotedSeat(s0, votedPlayerId);
        gameState.Abs() == VoteEnd(s0, v) &&
        actionHistory.entries == old(actionHistory.entries) + VoteLog(s0, v) &&
        gameHistory == old(gameHistory) + VoteEvents(s0, v)
    {
      ghost var s0 := gameState.Abs();
      var votedOutPlayer: Option<Player> := None;
      if TruthyId(votedPlayerId) {
        votedOutPlayer := gameState.GetPlayerById(votedPlayerId.value);
      }
      CloseVote(votedOutPlayer, VotedSeat(s0, votedPlayerId));
      res := ActionResult(true, "Voting processed.");
    }

    /** `resolveVoting` once the voted-out player, if any, is found at seat `v`. */
    method CloseVote(votedOutPlayer: Option<Player>, ghost v: Option<nat>)
      requires Valid()
      requires v.Some? <==> votedOutPlayer.Some?
      requires v.Some? ==> v.value < |gameState.players| && votedOutPlayer.value == gameState.players[v.value]
      modifies this, gameState, gameState.players, actionHistory
      ensures Valid()
      ensures votingResults == []
      ensures undoActionHistory == old(undoActionHistory) && stateSnapshots == old(stateSnapshots)
      ensures gameState.Abs() == VoteEnd(old(gameState.Abs()), v)
      ensures actionHistory.entries == old(actionHistory.entries) + VoteLog(old(gameState.Abs()), v)
      ensures gameHistory == old(gameHistory) + VoteEvents(old(gameState.Abs()), v)
    {
      ghost var s0 := gameState.Abs();
      ghost var h0 := actionHistory.entries;
      ghost var g0 := gameHistory;
      assert v.Some? ==> votedOutPlayer.value.Rec() == s0.players[v.value];
      actionHistory.AddGameEvent("VOTING_ENDED", gameState,
        Some(VotingEnded(if votedOutPlayer.Some? then Some(votedOutPlayer.value.id) else None, gameState.dayNumber)), None);
      ghost var h1 := actionHistory.entries;
      VoteOut(votedOutPlayer, v);
      ghost var g1 := gameHistory;
      NightFalls();
      SplitLog(h0, h1, actionHistory.entries, VotingEndedLog(s0, v), NightfallLog(AfterVote(s0, v)));
      SplitLog(g0, g1, gameHistory, VotedOutEvents(s0, v), NightfallEvents(AfterVote(s0, v)));
      votingResults := [];
    }

    /** The voted-out player of `resolveVoting`, if any, dies; the death is broadcast and reactions are drained. */
    method VoteOut(votedOutPlayer: Option<Player>, ghost v: Option<nat>)
      requires Valid()
      requires v.Some? <==> votedOutPlayer.Some?
      requires v.Some? ==> v.value < |gameState.players| && votedOutPlayer.value == gameState.players[v.value]
      modifies this, gameState, gameState.players
      ensures Valid()
      ensures votingResults == old(votingResults)
      ensures undoActionHistory == old(undoActionHistory) && stateSnapshots == old(stateSnapshots)
      ensures gameState.Abs() == AfterVote(old(gameState.Abs()), v)
      ensures actionHistory.entries == old(actionHistory.entries)
      ensures gameHistory == old(gameHistory) + VotedOutEvents(old(gameState.Abs()), v)
    {
      if votedOutPlayer.Some? {
        gameState.SetAliveOf(votedOutPlayer.value, v.value, false);
        Broadcast(PlayerDied(votedOutPlayer.value.id, VotedOut));
        DrainQueue();
      }
    }

    /** The end of `resolveVoting`: a winner ends the game, or night falls on the same day. */
    method NightFalls()
      requires Valid()
      modifies this, gameState, actionHistory
      ensures Valid()
      ensures votingResults == old(votingResults)
      ensures undoActionHistory == old(undoActionHistory) && stateSnapshots == old(stateSnapshots)
      ensures gameState.Abs() == Nightfall(old(gameState.Abs()))
      ensures actionHistory.entries == old(actionHistory.entries) + NightfallLog(old(gameState.Abs()))
      ensures gameHistory == old(gameHistory) + NightfallEvents(old(gameState.Abs()))
    {
      var winner := CheckWinConditions(gameState.Abs());
      if winner.Some? {
        gameState.winner := winner;
        gameState.phase := Finished;
        actionHistory.AddGameEvent("GAME_ENDED", gameState, Some(GameEnded(winner.value)), None);
      } else {
        gameState.phase := Night;
        actionHistory.AddGameEvent("NIGHT_STARTED", gameState, Some(NightStarted(gameState.dayNumber)), None);
        Broadcast(PhaseChanged(Night, gameState.dayNumber));
      }
    }

    /** `canUndo`: there is an action to undo. */
    function CanUndo(): (b: bool)
      reads this
      ensures b <==> undoActionHistory != []
    {
      |undoActionHistory| > 0
    }

    /**
     * `undoLastAction`: with nothing to undo it fails and changes nothing.
     * Otherwise the last action is popped; if a snapshot remains it is
     * popped too, restored and ACTION_UNDONE is broadcast. With the
     * snapshot stack already empty, restoring reads `players` of
     * `undefined` and a TypeError escapes after the action was popped.
     */
    method UndoLastAction() returns (out: Outcome)
      requires Valid()
      modifies this, gameState, gameState.players
      ensures Valid()
      ensures old(undoActionHistory) == [] ==>
        out == Returns(ActionResult(false, "No actions to undo")) &&
        gameState.Abs() == old(gameState.Abs()) && gameHistory == old(gameHistory) &&
        stateSnapshots == old(stateSnapshots) && undoActionHistory == []
      ensures old(undoActionHistory) != [] ==>
        undoActionHistory == old(undoActionHistory)[..|old(undoActionHistory)| - 1]
      ensures old(undoActionHistory) != [] && old(stateSnapshots) == [] ==>
        out == Throws("TypeError: Cannot read properties of undefined (reading 'players')") &&
        gameState.Abs() == old(gameState.Abs()) && gameHistory == old(gameHistory) && stateSnapshots == []
      ensures old(undoActionHistory) != [] && old(stateSnapshots) != [] ==>
        out == Returns(ActionResult(true, "Action undone successfully")) &&
        stateSnapshots == old(stateSnapshots)[..|old(stateSnapshots)| - 1] &&
        gameState.Abs() == Restore(old(gameState.Abs()), old(stateSnapshots)[|old(stateSnapshots)| - 1]) &&
        gameHistory == old(gameHistory) + [ActionUndone(TypeName(old(undoActionHistory)[|old(undoActionHistory)| - 1].action))]
      ensures votingResults == old(votingResults)
    {
      if |undoActionHistory| == 0 {
        return Returns(ActionResult(false, "No actions to undo"));
      }
      var lastAction := undoActionHistory[|undoActionHistory| - 1];
      undoActionHistory := undoActionHistory[..|undoActionHistory| - 1];
      if |stateSnapshots| == 0 {
        return Throws("TypeError: Cannot read properties of undefined (reading 'players')");
      }
      RestoreLastSnapshot(lastAction.GetType());
      out := Returns(ActionResult(true, "Action undone successfully"));
    }

    /** The snapshot half of `undoLastAction`: pop, restore, broadcast ACTION_UNDONE. */
    method RestoreLastSnapshot(actionType: string)
      requires gameState.Valid() && immediateActionQueue == [] && 0 < |stateSnapshots| <= |undoActionHistory| + 1
      modifies this, gameState, gameState.players
      ensures Valid()
      ensures stateSnapshots == old(stateSnapshots)[..|old(stateSnapshots)| - 1]
      ensures gameState.Abs() == Restore(old(gameState.Abs()), old(stateSnapshots)[|old(stateSnapshots)| - 1])
      ensures gameHistory == old(gameHistory) + [ActionUndone(actionType)]
      ensures undoActionHistory == old(undoActionHistory) && votingResults == old(votingResults)
    {
      var lastSnapshot := stateSnapshots[|stateSnapshots| - 1];
      stateSnapshots := stateSnapshots[..|stateSnapshots| - 1];
      gameState.RestoreFromSnapshot(lastSnapshot);
      Broadcast(ActionUndone(actionType));
    }
  }
}
