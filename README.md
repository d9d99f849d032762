# Werewolf game-master engine, modelled in Dafny

This project models the rules engine of a Werewolf (Ma Sói) game-master app.
The game master seats the players, assigns the roles and runs the nights and
days. During a night the role holders act through the engine. At dawn the
marked players die. During the day the village votes one player out. The
engine checks after each step whether a faction has won.

The model covers these parts:

- **Players and game state** (`player.dfy`, `game_state.dfy`). `Player` is a class whose flags, role and lover
  are updated in place. `GameState` is a class over the player objects. It has the phase, the day counter,
  the nightly fields (`nightlyKills` as an insertion-ordered map, the healed, poisoned and seer results) and
  the winner. `GameState.Abs()` is its value view (`State`). The snapshot and restore pair lives here too.
- **Actions** (`actions.dfy`). `Kill`, `Protect`, `Heal`, `Poison`, `See`, `Couple` and `Shoot` are a datatype.
  A `Command` object holds one action and the private "previous" memo that `execute` saves and `undo` reads.
  `Command.Execute` and `Command.Undo` change the game state in place. They are proved against the value
  functions `Apply` and `Revert`. One lemma per action states what undo gives back.
- **Roles** (`roles.dfy`, `role_behaviour.dfy`). The seven roles and the Lovers decorator form a datatype. The
  Witch's two potions are a `Witch` object that is updated in place. `createAction` is modelled per role,
  with the payload as a JSON-like value. So are the reaction to game events and the options record for the screen.
- **Rule set** (`rules.dfy`). These are the win conditions in their exact order, the two night turn orders
  and the first-night kill flag.
- **History** (`history.dfy`). This is the append-only action and event log with its filters, including
  "last night's actions".
- **Engine** (`engine.dfy`, `engine_rules.dfy`). `GameEngine` is a class with the game state, the raw event
  log, the immediate-action queue, the structured history, the voting results and the two undo stacks. The
  value functions in `engine_rules.dfy` say what each engine operation does to the state and the logs. Each
  engine method's postcondition ties its final state to them.
- **Screen helpers** (`can_act.dfy`, `role_suggestions.dfy`, `seat_layout.dfy`). These are the "can this
  role act" check of the game hook and the suggested role setups per player count. They also include the
  timer format, the player status, the grid layout and the clockwise seating of the players around the grid.
  Seating is an in-place array fill with four loops.

Where the code and the intended design differ, the model follows the code:

- Cupid accepts only an array of at least two ids. An object `{target1Id, target2Id}` is rejected.
- The Werewolf's options ignore `canWerewolfKillOnFirstNight`.
- The Hunter has no one-shot limit. Its `createAction` builds a `KillAction`, so the target is only marked.
  That target is never reported as shot.
- Every screen caller hands `checkIfRoleCanAct` the record of `getActionOptions`, which only Werewolf, Seer and
  Bodyguard define. For the other roles, decorated ones included, that call throws first (see "Findings").
  The intended check reads `getUiContext` in its place. There, the Villager's empty record counts as "can act".
- Poison and Kill affect only living targets. Protect affects any existing target.
- `resolveNight` resets the nightly fields even when the game ends.
- `resolveVoting` has no phase guard.
- The undo stacks are filled only by `submitGroupAction`. A Witch heal and poison pushes two actions but one
  snapshot, so the second undo finds no snapshot. The model returns the resulting `TypeError` as the
  `Throws` outcome of `UndoLastAction`.
- `onGameEvent` is missing on the Villager, Witch, Hunter and Cupid roles and on the Lovers decorator, and
  `createAction` is missing on the Villager. The effect of each call through a missing hook is recorded
  under "Findings". The engine itself is modelled with the evidently intended "no reaction" and "no action".

All source paths below are relative to the repository root.

## Model

| member | source | states |
|---|---|---|
| Players.Player.constructor | src/game-core/types/Player.ts:16-20 | a new player has the given id and name, no role, no lover, is alive and is neither marked, protected nor silenced |
| Players.Find | src/game-core/types/GameState.ts:30-32 | the lookup yields the first seat with the id, and nothing exactly when no seat has that id |
| Players.FindOwnId | src/game-core/types/GameState.ts:30-32 | with unique ids, looking up a seat's own id yields that seat |
| Players.Living | src/game-core/types/GameState.ts:34-36 | the result holds only living players and every living player |
| Players.LivingAppend | src/game-core/types/GameState.ts:34-36 | the filter keeps list order and multiplicity: a single player is kept exactly when alive, and the filter of a concatenation is the concatenation of the filters |
| Players.LivingPlayers | src/game-core/types/GameState.ts:34-36 | the living player objects, whose values are `Living` of the players' values |
| GameStates.GameState.constructor | src/game-core/types/GameState.ts:25-28 | a new state holds the given players in the Setup phase, day 0, with empty nightly fields and no winner |
| GameStates.GameState.GetPlayerById | src/game-core/types/GameState.ts:30-32 | returns the player object at the first seat with the id, and nothing exactly when no seat has it |
| GameStates.GameState.GetLivingPlayers | src/game-core/types/GameState.ts:34-36 | returns living players only, whose values are exactly `Living` of the state's players in order |
| GameStates.ResetNightly | src/game-core/types/GameState.ts:39-49 | empties the kills and protected lists, nulls healed, poisoned, trial and seer result, clears every `isProtected` and changes nothing else |
| GameStates.ResetNightlyIdempotent | src/game-core/types/GameState.ts:39-49 | resetting twice is the same as resetting once |
| GameStates.GameState.ResetNightlyActions | src/game-core/types/GameState.ts:39-49 | the new state is `ResetNightly` of the old one |
| GameStates.TakeSnapshot | src/game-core/types/GameState.ts:54-81 | the snapshot lists the players in the same number and order, by id |
| GameStates.RestorePlayer | src/game-core/types/GameState.ts:88-97 | restoring changes only the four flags of a player |
| GameStates.RestorePlayerFromFirstSaved | src/game-core/types/GameState.ts:88-97 | the four flags come from the first saved entry with the player's id, and a player whose id is not saved keeps them |
| GameStates.Restore | src/game-core/types/GameState.ts:86-108 | ids, names, roles, lovers and the trial are kept; each player's flags are restored by `RestorePlayer`; phase, day, winner, healed, poisoned and the seer result come from the snapshot; kills and protections are rebuilt through `new Map` and `new Set` |
| GameStates.RestoreSnapshot | src/game-core/types/GameState.ts:54-108 | restoring any state with the same ids from a snapshot of `s` gives `s` back, except for names, roles, lovers and the trial, which stay as they were |
| GameStates.RestoreOwnSnapshot | src/game-core/types/GameState.ts:54-108 | restoring a state from its own snapshot gives the same state |
| GameStates.GameState.RestorePlayerFlags | src/game-core/types/GameState.ts:88-97 | the players' new values are `RestorePlayers` of their old values |
| GameStates.GameState.RestoreFromSnapshot | src/game-core/types/GameState.ts:86-108 | the new state is `Restore` of the old state and the snapshot |
| OrderedMaps.Put | src/game-core/actions/KillAction.ts:27 | `Map.set`: the key maps to the value, other keys keep theirs, an existing key keeps its position and a new key goes last |
| OrderedMaps.Delete | src/game-core/actions/KillAction.ts:47 | `Map.delete`: the key is gone and every other key keeps its value |
| OrderedMaps.DeleteAfterPut | src/game-core/actions/KillAction.ts:27-47 | deleting a freshly set key gives the map back |
| OrderedMaps.FromEntries | src/game-core/types/GameState.ts:102 | `new Map(entries)` has unique keys |
| OrderedMaps.FromEntriesOfMap | src/game-core/types/GameState.ts:74-102 | rebuilding a map from its own entries gives the map back |
| OrderedMaps.Dedup | src/game-core/types/GameState.ts:103 | `new Set(list)` has no duplicates and the same members |
| OrderedMaps.DedupNoDup | src/game-core/types/GameState.ts:75-103 | a duplicate-free list survives the set round trip unchanged |
| Actions.ExecKill | src/game-core/actions/KillAction.ts:14-39 | a missing or dead target changes nothing; otherwise the kill is recorded and the target is marked unless it is protected; only that mark changes |
| Actions.ExecProtect | src/game-core/actions/ProtectAction.ts:12-20 | the first seat with the id, alive or dead, becomes protected; nothing else changes |
| Actions.ExecHeal | src/game-core/actions/HealAction.ts:12-24 | for an existing target, `nightlyHealed` becomes the target and the target ends unmarked; a missing target changes nothing |
| Actions.ExecPoison | src/game-core/actions/PoisonAction.ts:12-26 | a living target is marked whatever its protection and `nightlyPoisoned` becomes the target; otherwise nothing changes |
| Actions.ExecSee | src/game-core/actions/SeeAction.ts:14-30 | when target and seer exist and the target has a role, the seer result is the target's id, name and faction; only that field changes |
| Actions.ExecCouple | src/game-core/actions/CoupleAction.ts:19-47 | when both exist, each becomes the other's lover and both roles are decorated exactly when both have roles of different factions; role names never change |
| Actions.ExecShoot | src/game-core/actions/ShootAction.ts:14-21 | only the first seat with the id dies; no other field changes |
| Actions.Apply | src/game-core/actions/IAction.ts:8-13 | no action changes ids, names, role names, phase, day, winner or trial; only a shot changes who is alive |
| Actions.ApplyAll | src/game-core/GameEngine.ts:154-155 | running actions in order keeps ids, phase, day and winner; without a shot nobody dies and no role name changes |
| Actions.KillUndone | src/game-core/actions/KillAction.ts:41-51 | undo after execute restores the state, except that a kill entry for the target recorded earlier is also removed |
| Actions.ProtectUndone | src/game-core/actions/ProtectAction.ts:22-28 | undo after execute gives the state back exactly |
| Actions.HealUndone | src/game-core/actions/HealAction.ts:26-29 | undo restores only `nightlyHealed` (an empty id becomes null); a cleared death mark stays cleared |
| Actions.PoisonUndone | src/game-core/actions/PoisonAction.ts:28-37 | undo after execute restores the mark and sets `nightlyPoisoned` to null |
| Actions.SeeUndone | src/game-core/actions/SeeAction.ts:32-35 | undo restores the prior seer result, or null when execute did nothing |
| Actions.CoupleUndone | src/game-core/actions/CoupleAction.ts:49-66 | undo after execute gives back both lovers and both roles exactly |
| Actions.ShootUndone | src/game-core/actions/ShootAction.ts:23-29 | undo after execute gives the state back exactly |
| Actions.TypeNameIdentifiesKind | src/game-core/actions/IAction.ts:21-24 | equal type names mean the same kind of action |
| Actions.Serialize | src/game-core/actions/KillAction.ts:57-66 | the serialized type is the action's type name |
| Actions.SerializeRoundTrip | src/game-core/actions/IAction.ts:26-29 | every action can be rebuilt from its serialized type and payload |
| Actions.Command.constructor | src/game-core/actions/KillAction.ts:9-12 | a new command holds its action and no saved previous state |
| Actions.Command.Execute | src/game-core/actions/IAction.ts:9-13 | the new state is `Apply` of the old one; the memo is replaced exactly when the action takes effect |
| Actions.Command.ExecuteKill | src/game-core/actions/KillAction.ts:14-39 | the new state is `ExecKill` of the old one and the previous mark is saved |
| Actions.Command.ExecuteProtect | src/game-core/actions/ProtectAction.ts:12-20 | the new state is `ExecProtect` of the old one and the previous protection is saved |
| Actions.Command.ExecuteHeal | src/game-core/actions/HealAction.ts:12-24 | the new state is `ExecHeal` of the old one and the previous healed id is saved |
| Actions.Command.ExecutePoison | src/game-core/actions/PoisonAction.ts:12-26 | the new state is `ExecPoison` of the old one and the previous mark is saved |
| Actions.Command.ExecuteSee | src/game-core/actions/SeeAction.ts:14-30 | the new state is `ExecSee` of the old one and the previous result is saved |
| Actions.Command.ExecuteCouple | src/game-core/actions/CoupleAction.ts:19-47 | the new state is `ExecCouple` of the old one and both previous lovers and roles are saved |
| Actions.Command.ExecuteShoot | src/game-core/actions/ShootAction.ts:14-21 | the new state is `ExecShoot` of the old one and the previous aliveness is saved |
| Actions.Command.Undo | src/game-core/actions/IAction.ts:15-19 | the new state is `Revert` of the old one, the action and the saved memo |
| Actions.Command.UndoKill | src/game-core/actions/KillAction.ts:41-51 | the new state is `RevertKill` of the old one |
| Actions.Command.UndoProtect | src/game-core/actions/ProtectAction.ts:22-28 | the new state is `RevertProtect` of the old one |
| Actions.Command.UndoPoison | src/game-core/actions/PoisonAction.ts:28-37 | the new state is `RevertPoison` of the old one |
| Actions.Command.UndoCouple | src/game-core/actions/CoupleAction.ts:49-66 | the new state is `RevertCouple` of the old one |
| Actions.Command.UndoShoot | src/game-core/actions/ShootAction.ts:23-29 | the new state is `RevertShoot` of the old one |
| Basics.OrNull | src/game-core/actions/HealAction.ts:28 | `x \|\| null` keeps a non-empty id and gives null otherwise |
| Roles.Witch.constructor | src/game-core/roles/villagers/Witch.ts:15-16 | a new Witch holds both potions |
| Roles.Decorate | src/game-core/roles/decorators/LoverRoleDecorator.ts:12-28 | the decorated role keeps the name and the Witch, and has faction Lovers |
| Roles.NameOfDecorated | src/game-core/roles/decorators/LoverRoleDecorator.ts:14-19 | every role, decorated any number of times, has one of the seven names; a decorated role has its wrapped role's name and faction Lovers |
| Roles.RoleMapKeysAreRoleNames | src/game-core/roles/index.ts:11-19 | the role map has exactly one key for each of the seven role names |
| Roles.MakeRole | src/game-core/roles/index.ts:11-19 | the factory for a key builds an undecorated role with that name; only Werewolf has faction Werewolf; a Witch is a fresh object with both potions |
| Roles.UndecoratedFaction | src/game-core/roles/werewolves/Werewolf.ts:12 | an undecorated role has faction Werewolf exactly when it is the Werewolf, and never Lovers or Solo |
| RoleBehaviour.WitchCreate | src/game-core/roles/villagers/Witch.ts:23-40 | a non-object payload gives null with the potions kept; a heal or poison is emitted exactly when its target is a non-empty string and its potion remains, heal first; a potion is spent exactly when its action is emitted |
| RoleBehaviour.CreateActionOf | src/game-core/roles/IRole.ts:30-37 | only the Witch changes potion flags; a produced list is never empty and never contains a shot |
| RoleBehaviour.PotionsNeverRefill | src/game-core/roles/villagers/Witch.ts:29-37 | a potion flag can only go from true to false |
| RoleBehaviour.WitchUsesEachPotionOnce | src/game-core/roles/villagers/Witch.ts:15-37 | over any sequence of payloads, each potion is used at most once, and it is used exactly when its flag went from true to false |
| RoleBehaviour.KillerRoles | src/game-core/roles/werewolves/Werewolf.ts:32-38 | Werewolf and Hunter: a string gives exactly one Kill of that target by self, with no check on the target; anything else gives null |
| RoleBehaviour.SeerReads | src/game-core/roles/villagers/Seer.ts:27-33 | a string gives exactly one See of that target by self, self included; anything else gives null |
| RoleBehaviour.BodyguardCannotProtectSelf | src/game-core/roles/villagers/Bodyguard.ts:24-35 | self gives null; any other string gives exactly one Protect |
| RoleBehaviour.CupidNeedsArray | src/game-core/roles/villagers/Cupid.ts:32-38 | null exactly unless the payload is an array of at least two ids; then one Couple of the first two |
| RoleBehaviour.DecoratorDelegates | src/game-core/roles/decorators/LoverRoleDecorator.ts:43-49 | a decorated role, decorated once or twice, creates exactly what its wrapped role creates |
| RoleBehaviour.VillagerNeverActs | src/game-core/roles/villagers/Villager.ts:8-22 | a Villager, plain or decorated, never produces an action and changes no flags |
| RoleBehaviour.CreateAction | src/game-core/roles/villagers/Witch.ts:23-40 | returns fresh commands exactly for the actions `CreateActionOf` produces, and the Witch's potion flags become its new flags |
| RoleBehaviour.OnGameEvent | src/game-core/roles/werewolves/Werewolf.ts:16-28 | a role's reaction to any event is always "no actions" |
| RoleBehaviour.ActionOptionsOf | src/game-core/roles/werewolves/Werewolf.ts:40-55 | options exist exactly for the roles that define `getActionOptions` |
| RoleBehaviour.UiContextOf | src/game-core/roles/villagers/Witch.ts:42-53 | a context exists exactly for the roles that define `getUiContext` |
| RoleBehaviour.KilledPlayer | src/game-core/roles/villagers/Witch.ts:43-44 | the heal candidate is the seat of the first key in `nightlyKills` |
| RoleBehaviour.OthersAppend | src/game-core/roles/villagers/Seer.ts:35-40 | the "others" filter keeps list order: a single player is kept exactly when its id is not self, and the filter distributes over concatenation |
| RoleBehaviour.OthersLivingIds | src/game-core/roles/villagers/Seer.ts:35-42 | the offered ids are exactly the living players other than self |
| RoleBehaviour.NightTargets | src/game-core/roles/werewolves/Werewolf.ts:40-55 | for Werewolf, Seer and Bodyguard, the targets are the living others in order; a Werewolf target is invalid, with a reason, exactly when it is a wolf |
| RoleBehaviour.WitchOptions | src/game-core/roles/villagers/Witch.ts:42-53 | heal is offered exactly when the potion remains and the first killed id is non-empty and names a player; poison is offered when its potion remains; the poison targets are the living others |
| RoleBehaviour.HunterOptions | src/game-core/roles/villagers/Hunter.ts:38-47 | `canShoot` is exactly "self is dead"; the targets are all living players |
| RoleBehaviour.CupidOptions | src/game-core/roles/villagers/Cupid.ts:40-51 | `canAct` holds exactly on day 1; then the targets are all living players, otherwise none |
| RoleBehaviour.DecoratedUiContext | src/game-core/roles/decorators/LoverRoleDecorator.ts:39-41 | a decorated role has the same UI context as its wrapped role |
| CanAct.CheckIfRoleCanAct | src/hooks/useGame.ts:185-219 | `canAct` false gives false; otherwise present targets decide it (non-empty, and enough when a count is required); without targets `canShoot` decides it; otherwise true |
| RoleBehaviour.ActionOptionsAsWrittenFails | src/hooks/useGame.ts:269-281 | as written, calling `getActionOptions` throws exactly for Villager, Witch, Hunter, Cupid and decorated roles; otherwise it returns `ActionOptionsOf` |
| RoleBehaviour.ScreenOptions | src/game-core/roles/decorators/LoverRoleDecorator.ts:39-41 | the intended record: `getActionOptions` where the role defines it, `getUiContext` where it defines that instead, and a decorated role's record is its wrapped role's |
| CanAct.CanActThrowsWithoutActionOptions | src/features/game-master/components/ControlPanel/FirstNightCard/index.tsx:91-96 | as written, the check throws before it starts exactly for Villager, Witch, Hunter, Cupid and decorated roles; where it runs, it agrees with the intended check |
| CanAct.TargetingRolesCanAct | src/hooks/useGame.ts:193-208 | Werewolf, Seer and Bodyguard can act exactly when another living player exists, as written and as intended |
| CanAct.HunterCanAct | src/hooks/useGame.ts:193-208 | with `getUiContext` standing in, the Hunter can act exactly when anyone is alive, whatever `canShoot` says |
| CanAct.CupidCanAct | src/game-core/roles/villagers/Cupid.ts:40-51 | with `getUiContext` standing in, Cupid can act exactly on day 1 with someone alive |
| CanAct.VillagerAndWitchCanAct | src/hooks/useGame.ts:210-216 | with `getUiContext` standing in, the Villager's empty record and the Witch's record always count as "can act" |
| CanAct.LoverCanAct | src/game-core/roles/decorators/LoverRoleDecorator.ts:39-41 | with the intended check, a decorated role can act exactly when its wrapped role can |
| Rules.CountFaction | src/game-core/rules/StandardRuleSet.ts:36-55 | the count is zero exactly when no player has the faction (and no lover, when asked) |
| Rules.CountFactionAppend | src/game-core/rules/StandardRuleSet.ts:36-55 | counts add up over a split of the list, and a single player counts once exactly when it has the faction (and no lover, when asked) |
| Rules.CountLovers | src/game-core/rules/StandardRuleSet.ts:44 | all players are counted exactly when all have a lover |
| Rules.CheckWinConditions | src/game-core/rules/StandardRuleSet.ts:29-72 | the winner is never the Solo faction |
| Rules.NoWinnerWhenAllDead | src/game-core/rules/StandardRuleSet.ts:31-33 | with nobody alive there is no winner |
| Rules.LoversWinFirst | src/game-core/rules/StandardRuleSet.ts:44-50 | Lovers win exactly when two players live and both have a lover |
| Rules.WerewolfWinNeedsSingleWolf | src/game-core/rules/StandardRuleSet.ts:52-62 | a Werewolf win needs a living Werewolf-faction player without a lover |
| Rules.WerewolfWinsExactly | src/game-core/rules/StandardRuleSet.ts:46-62 | the Werewolves win exactly when the Lovers have not, and the living Werewolf-faction players without a lover are at least one and strictly more than the living Villager-faction players without a lover |
| Rules.NoWinnerOtherwise | src/game-core/rules/StandardRuleSet.ts:29-72 | nobody wins exactly when everyone is dead, or when neither the Lovers nor the Werewolves win and some living player still has the Werewolf faction |
| Rules.VillagersWinWhenNoWolfLives | src/game-core/rules/StandardRuleSet.ts:64-68 | Villagers win exactly when someone lives, Lovers do not win and no living player has faction Werewolf |
| Rules.EqualNumbersContinue | src/game-core/rules/StandardRuleSet.ts:57-71 | one wolf against one villager, neither a lover, does not end the game: the check is strict |
| Rules.GetNightTurnOrder | src/game-core/rules/StandardRuleSet.ts:8-16 | Cupid, Bodyguard, Werewolf, Witch, Seer, each a fresh undecorated role |
| Rules.GetFirstNightTurnOrder | src/game-core/rules/StandardRuleSet.ts:18-27 | the night order with Hunter appended |
| Rules.CanWerewolfKillOnFirstNight | src/game-core/rules/StandardRuleSet.ts:74-76 | always true |
| History.ActionEntryOf | src/game-core/GameHistory.ts:36-67 | an ACTION entry stamped with the state's phase and day, the action's type, the first actor's role and the serialized payload; it is a group entry with members exactly when there is more than one actor; it carries the seer result only for a See |
| History.ActorIdsRecoverable | src/game-core/GameHistory.ts:51 | when no id contains a comma, splitting `actorId` at commas gives back the actors' ids |
| History.GameEventOf | src/game-core/GameHistory.ts:72-89 | a GAME_EVENT entry stamped with the state's phase and day, carrying the type, data and message and no actor |
| History.ActionEntries | src/game-core/GameHistory.ts:139-141 | keeps exactly the ACTION entries |
| History.GameEventEntries | src/game-core/GameHistory.ts:146-148 | keeps exactly the GAME_EVENT entries |
| History.ActionsAndEventsPartition | src/game-core/GameHistory.ts:139-148 | the two filters split the log: their lengths add up and their multisets add up to the log's |
| History.ByPhase | src/game-core/GameHistory.ts:101-107 | keeps exactly the entries of the phase, and of the day when one is given |
| History.ByRole | src/game-core/GameHistory.ts:112-114 | keeps exactly the entries with that role name |
| History.MaxDay | src/game-core/GameHistory.ts:122 | the largest day number in a non-empty log |
| History.LastNightActions | src/game-core/GameHistory.ts:119-134 | empty for an empty log or a largest day below 1; otherwise exactly the Night ACTION entries of the day before the largest |
| History.LastNightInLogOrder | src/game-core/GameHistory.ts:119-134 | the result is a single in-order filter of the log |
| History.AppendExtendsKinds | src/game-core/GameHistory.ts:66-88 | appending an entry extends the matching kind filter by that entry and leaves the other unchanged |
| History.AppendExtendsByPhase | src/game-core/GameHistory.ts:66-107 | appending an entry extends the phase filter by it exactly when it matches |
| History.AppendExtendsByRole | src/game-core/GameHistory.ts:66-114 | appending an entry extends the role filter by it exactly when it matches |
| History.GameHistory.constructor | src/game-core/GameHistory.ts:31 | a new history is empty |
| History.GameHistory.AddActionEntry | src/game-core/GameHistory.ts:36-67 | appends exactly one `ActionEntryOf` entry at the end and changes neither the state nor the actors |
| History.GameHistory.AddGameEvent | src/game-core/GameHistory.ts:72-89 | appends exactly one `GameEventOf` entry at the end and changes nothing else |
| History.GameHistory.Clear | src/game-core/GameHistory.ts:153-155 | the log is empty |
| EngineRules.Reactions | src/game-core/GameEngine.ts:47-56 | the living role holders' reactions to an event add no actions |
| EngineRules.FirstWith | src/game-core/GameEngine.ts:132-134 | the first seat with that role name and aliveness, and nothing exactly when none exists |
| EngineRules.ImmediateActor | src/game-core/GameEngine.ts:192-209 | the first living holder of the role, else the first dead one, and nothing exactly when nobody holds it |
| EngineRules.WithRoleAppend | src/game-core/GameEngine.ts:158-160 | the role filter keeps list order: a single player is kept exactly when it holds the role, and the filter distributes over concatenation |
| EngineRules.PlayersWithRole | src/game-core/GameEngine.ts:158-160 | the player objects whose values are exactly the holders of the role, in order |
| EngineRules.ActingSeatStays | src/game-core/GameEngine.ts:158-167 | after the group's actions the role still has a living holder, so every entry has an actor |
| EngineRules.GroupEntriesRecord | src/game-core/GameEngine.ts:162-167 | entry i is an ACTION entry for action i, with that action's type and the acting role's name |
| EngineRules.SoloEntriesRecord | src/game-core/GameEngine.ts:231-236 | entry i is a single-actor ACTION entry for action i, with that action's type |
| EngineRules.SoloEvents | src/game-core/GameEngine.ts:238-245 | one ACTION_SUBMITTED event per action, with that action's type |
| EngineRules.ShotNeverBroadcast | src/game-core/GameEngine.ts:248-254 | since no role creates a shot, the target is never found dead and no PLAYER_DIED is broadcast |
| EngineRules.Concluded | src/game-core/GameEngine.ts:259-267 | with a winner the game is Finished with that winner; otherwise the state is unchanged |
| EngineRules.GameEndLog | src/game-core/GameEngine.ts:259-267 | one GAME_ENDED entry, stamped Finished, exactly when there is a winner |
| EngineRules.AssignOrder | src/game-core/GameEngine.ts:97-111 | the seats that receive the role are exactly the role-less players whose id is listed, each once |
| EngineRules.AssignSkip | src/game-core/GameEngine.ts:98-107 | an unknown id or a player who already has a role is skipped |
| EngineRules.AssignGive | src/game-core/GameEngine.ts:108-110 | a role-less player gets the fresh role and is appended to the assigned seats |
| EngineRules.DyingIds | src/game-core/GameEngine.ts:284-291 | every living marked player is listed |
| EngineRules.DyingIdsAreDying | src/game-core/GameEngine.ts:285-291 | every listed player was living and marked |
| EngineRules.DeathEvents | src/game-core/GameEngine.ts:301-306 | one PLAYER_DIED event per dead player, in order |
| EngineRules.NightEnd | src/game-core/GameEngine.ts:278-344 | exactly the living marked players die and lose the mark; nobody stays protected; either Finished with the winner or Day_Discuss on the next day; the nightly fields are reset |
| EngineRules.KillThenHeal | src/game-core/actions/HealAction.ts:18-22 | a Kill then a Heal on the same unprotected living player leaves it alive and unmarked |
| EngineRules.HealedVictimSurvives | src/game-core/GameEngine.ts:285-291 | that player survives the night's end |
| EngineRules.ProtectThenKill | src/game-core/actions/KillAction.ts:22-29 | a Protect then a Kill leaves the target alive and unmarked |
| EngineRules.ProtectionAbsorbsBite | src/game-core/actions/KillAction.ts:22-29 | that target survives the night's end |
| EngineRules.PoisonIgnoresProtection | src/game-core/actions/PoisonAction.ts:14-20 | a poisoned protected player dies at the night's end |
| EngineRules.VotedSeat | src/game-core/GameEngine.ts:359-362 | the voted seat has the given id |
| EngineRules.VoteEnd | src/game-core/GameEngine.ts:358-401 | only the voted player dies; the day is unchanged; either Finished with the winner or Night; the nightly fields are untouched |
| EngineRules.BroadcastAsWrittenFails | src/game-core/GameEngine.ts:44-57 | as written, a broadcast throws exactly when a living role holder lacks `onGameEvent`; otherwise it reacts like `Reactions` |
| EngineRules.FirstNightThrowsWithVillager | src/game-core/GameEngine.ts:79-82 | as written, when a living Villager was assigned before `startFirstNight`, its PHASE_CHANGED broadcast throws |
| RoleBehaviour.OnGameEventAsWrittenFails | src/game-core/GameEngine.ts:50 | as written, calling `onGameEvent` throws exactly for Villager, Witch, Hunter, Cupid and decorated roles |
| RoleBehaviour.CreateActionThrowsOnlyForVillager | src/game-core/GameEngine.ts:143-146 | as written, calling `createAction` throws exactly for the Villager; for the others it agrees with `CreateActionOf` |
| Engine.GameEngine.constructor | src/game-core/GameEngine.ts:27-42 | a fresh state with role-less players from the roster, one GAME_STARTED event and empty stacks and history |
| Engine.GameEngine.Broadcast | src/game-core/GameEngine.ts:44-57 | appends the event to the event log and changes nothing else |
| Engine.GameEngine.ProcessImmediateActions | src/game-core/GameEngine.ts:59-64 | drains the queue, executing its actions in order: the new state is `ApplyAll` of the queued actions |
| Engine.GameEngine.StartFirstNight | src/game-core/GameEngine.ts:70-83 | Night, day 0, one FIRST_NIGHT_STARTED entry and one PHASE_CHANGED event |
| Engine.GameEngine.AssignRoleToPlayers | src/game-core/GameEngine.ts:85-126 | an unknown role fails and changes nothing; otherwise success, the role goes to exactly the `AssignOrder` seats, the message gives their count, and ROLE_ASSIGNED is logged exactly when the count is positive |
| Engine.GameEngine.AssignAll | src/game-core/GameEngine.ts:97-111 | the count and names are those of the `AssignOrder` seats, which now hold the role |
| Engine.GameEngine.SubmitGroupAction | src/game-core/GameEngine.ts:128-186 | no living holder, or no actions, fails and changes nothing (no Witch spends a potion); the acting role's Witch, and no other, ends with the potions `createAction` leaves; otherwise success, the actions run in order, one entry per action is logged, one ACTION_SUBMITTED event is broadcast, one snapshot is pushed and the undo stack grows by the actions |
| Engine.GameEngine.SubmitImmediateAction | src/game-core/GameEngine.ts:188-276 | with no holder, alive or dead, or no actions it fails and changes nothing (no Witch spends a potion); the acting role's Witch, and no other, ends with the potions `createAction` leaves; otherwise the actions run, are logged and are announced, and the game concludes when a faction has won; the undo stacks never change |
| Engine.GameEngine.ConcludeIfWon | src/game-core/GameEngine.ts:259-267 | the state becomes `Concluded` and GAME_ENDED is logged when there is a winner |
| Engine.GameEngine.ResolveNight | src/game-core/GameEngine.ts:278-344 | outside Night it fails and changes nothing; otherwise the state becomes `NightEnd` of the old one, with the NIGHT_ENDED, deaths, DAY_STARTED or GAME_ENDED logs and events |
| Engine.GameEngine.KillMarked | src/game-core/GameEngine.ts:284-291 | the living marked players die and lose the mark; the dead list is `DyingIds` |
| Engine.GameEngine.BroadcastDeaths | src/game-core/GameEngine.ts:300-306 | one PLAYER_DIED event per dead player, nothing else |
| Engine.GameEngine.StartVotingPhase | src/game-core/GameEngine.ts:346-356 | Day_Discuss moves to Day_Vote with one PHASE_CHANGED event; any other phase fails and changes nothing |
| Engine.GameEngine.ResolveVoting | src/game-core/GameEngine.ts:358-401 | always success; the state becomes `VoteEnd` of the voted seat, with the VOTING_ENDED, death and night or game-end logs; the voting results are cleared |
| Engine.GameEngine.CanUndo | src/game-core/GameEngine.ts:421-423 | holds exactly when the undo stack is non-empty |
| Engine.GameEngine.UndoLastAction | src/game-core/GameEngine.ts:403-419 | an empty stack fails and changes nothing; otherwise the last action is popped; with no snapshot left a TypeError escapes; otherwise the last snapshot is popped and restored and ACTION_UNDONE is broadcast |
| RoleSuggestions.GetSuggestedRoleSetups | src/game-core/config/RoleSuggestions.ts:190-192 | counts without an entry get no suggestions |
| RoleSuggestions.SuggestedCounts | src/game-core/config/RoleSuggestions.ts:13-192 | suggestions exist exactly for 6 to 16 players |
| RoleSuggestions.Fit6 | src/game-core/config/RoleSuggestions.ts:14-24 | the suggestions for 6 name each role once, add up to 6 and have a Werewolf and one Seer |
| RoleSuggestions.Fit7 | src/game-core/config/RoleSuggestions.ts:25-35 | likewise for 7 |
| RoleSuggestions.Fit8 | src/game-core/config/RoleSuggestions.ts:36-57 | likewise for 8 |
| RoleSuggestions.Fit9 | src/game-core/config/RoleSuggestions.ts:58-70 | likewise for 9 |
| RoleSuggestions.Fit10 | src/game-core/config/RoleSuggestions.ts:71-95 | likewise for 10 |
| RoleSuggestions.Fit11 | src/game-core/config/RoleSuggestions.ts:96-108 | likewise for 11 |
| RoleSuggestions.Fit12 | src/game-core/config/RoleSuggestions.ts:109-123 | likewise for 12 |
| RoleSuggestions.Fit13 | src/game-core/config/RoleSuggestions.ts:124-138 | likewise for 13 |
| RoleSuggestions.Fit14 | src/game-core/config/RoleSuggestions.ts:139-152 | likewise for 14 |
| RoleSuggestions.Fit15 | src/game-core/config/RoleSuggestions.ts:153-167 | likewise for 15 |
| RoleSuggestions.Fit16 | src/game-core/config/RoleSuggestions.ts:168-182 | likewise for 16 |
| RoleSuggestions.SuggestionsFit | src/game-core/config/RoleSuggestions.ts:13-192 | every suggestion for a count fits that count |
| RoleSuggestions.AdoptedRolesAddUp | src/features/setup/GameSetupPage.tsx:60-80 | the setup page adopts roles exactly for positive counts; they pass the role-count check exactly for 6 to 16 players; other counts start with no roles |
| PlayerDisplay.PadStart2 | src/features/game-master/utils/index.ts:9 | pads with leading zeros to length 2 and keeps the string as its suffix |
| PlayerDisplay.PadStart2Value | src/features/game-master/utils/index.ts:9 | padding a number keeps its value |
| PlayerDisplay.FormatTime | src/features/game-master/utils/index.ts:6-10 | the text has at least five characters with a colon before the last two |
| PlayerDisplay.FormatTimeRoundTrip | src/features/game-master/utils/index.ts:6-10 | reading the text back gives minutes = s div 60 and seconds = s mod 60 < 60, which recombine to s |
| PlayerDisplay.PlayerStatusOf | src/features/game-master/utils/index.ts:15-21 | the status has the priority dead, marked, protected, silenced, alive |
| PlayerDisplay.StatusColorAgrees | src/features/game-master/utils/index.ts:26-32 | the color is a function of the status, and two players share a color exactly when they share a status |
| SeatLayout.CeilDiv | src/features/game-master/utils/index.ts:46 | the integer ceiling of a quotient |
| SeatLayout.CalculateGridLayout | src/features/setup/utils/index.ts:7-19 | one row of n for n up to 6, at least 3 by 3 above 6, and 5 rows with (cols − 2)·4 < n + 4 ≤ (cols − 1)·4 above 18 |
| SeatLayout.CapacitySuffices | src/features/game-master/utils/index.ts:37-48 | the layout's border holds n players exactly when n ≤ 22, which covers every count the setup form offers |
| SeatLayout.Place | src/features/game-master/utils/index.ts:61-66 | places the next player exactly when one is left and the cell is in the grid and empty; a filled cell is never overwritten |
| SeatLayout.PlacePlayer | src/features/game-master/utils/index.ts:61-66 | the grid and counter become `Place` of the old ones |
| SeatLayout.TopRow | src/features/game-master/utils/index.ts:72 | visits the top row left to right |
| SeatLayout.RightColumn | src/features/game-master/utils/index.ts:74 | visits the right column downwards |
| SeatLayout.BottomRow | src/features/game-master/utils/index.ts:76 | visits the bottom row right to left |
| SeatLayout.LeftColumn | src/features/game-master/utils/index.ts:78 | visits the left column upwards |
| SeatLayout.WalkIsClockwise | src/features/setup/utils/index.ts:42-52 | the visit list is the top row, right column, bottom row and left column in that order |
| SeatLayout.PlaceAround | src/features/setup/utils/index.ts:39-52 | the array is filled along the whole clockwise walk |
| SeatLayout.ArrangePlayersInGrid | src/features/setup/utils/index.ts:24-55 | returns a new array of rows×cols cells equal to `Arranged` |
| SeatLayout.ArrangedInBorderOrder | src/features/game-master/utils/index.ts:58-81 | the k-th border cell, clockwise from the top left, holds player k if there is one; every other cell is empty |
| SeatLayout.BorderIsVisits | src/features/game-master/utils/index.ts:68-79 | on a proper grid the visits are the border cells, each once: cols of them for one row, 2·rows + 2·cols − 4 otherwise |
| SeatLayout.VisitsDistinct | src/features/game-master/utils/index.ts:70-79 | on a proper grid no cell is visited twice |
| SeatLayout.VisitInGrid | src/features/game-master/utils/index.ts:70-79 | every visited cell is inside the grid and on its border |
| SeatLayout.SingleRowInOrder | src/features/setup/utils/index.ts:39-41 | with one row, cell c holds player c when there is one |
| SeatLayout.InteriorStaysEmpty | src/features/game-master/utils/index.ts:70-79 | every interior cell stays empty |
| SeatLayout.EverySeatedOnce | src/features/game-master/utils/index.ts:37-81 | with the computed layout and at most 22 players, every player sits on the border in order and no other cell is filled |

## Left out

- Timestamps (`Date.now()`) in history entries and serialized actions, `console` diagnostics, and role
  descriptions: they do not affect the game.
- The Vietnamese display labels of `getPlayerStatus` are modelled as a `PlayerStatus` value. The colors of
  `getPlayerStatusColor` are modelled as the exact CSS class strings.
- Event payloads that carry `Player` objects are modelled by the player's id.
- The JSON persistence pair `getSerializableState`/`fromSerializedState` (GameEngine.ts:429-457): the
  reconstruction is `restoreFromSnapshot` on a fresh engine, which `RestoreFromSnapshot` covers.
- `getEntries`: it returns a copy of the log. The model's log is a value, which no caller can alias.
- The `ruleSet` parameter of the constructor: the model always uses the standard rule set.
- `getRuleSet`, `getActionHistory` and `getLastNightActions` on the engine only return a field or delegate to
  the history.
- The React components, the timers, drag-and-drop, local storage and the rest of the game hook.
- The component-local `getGridLayout` of the seating chart, which is not part of the utilities.
- SeatLayout: one module models both copies of `calculateGridLayout` and `arrangePlayersInGrid`. The
  copies in src/features/game-master/utils/index.ts and src/features/setup/utils/index.ts have the same code.
- SeatLayout.ArrangePlayersInGrid: requires `rows * cols >= 0`, because `Array` of a negative length
  throws a RangeError that is not modelled.
- PlayerDisplay.FormatTime: takes a natural number of seconds. Negative and fractional seconds are not
  modelled.
- SeatLayout.CalculateGridLayout: computes `Math.ceil((n + 4) / 2 / 2)` in integers, which is the same
  value for integer n.
- RoleBehaviour.CreateActionOf: array items and object fields of the payload are strings only. The source
  accepts any value there. A truthy non-string heal or poison target still spends the Witch's potion, and a
  non-string Cupid entry is passed on as an id. Neither of these is modelled.
- CanAct.CheckIfRoleCanAct: a `canShoot` field that is present but `undefined` counts as false.
- EngineRules.Reactions: the reaction of a role without `onGameEvent` is taken as "none", the evidently
  intended behaviour. The as-written `TypeError` is kept in `BroadcastAsWritten`.
- RoleBehaviour.CreateActionOf: the Villager's missing `createAction` is taken as "no action", the evidently
  intended behaviour. The as-written `TypeError` is kept in `CreateActionAsWritten`.
- `playerOnTrial` and `votingResults` are never written by the modelled code apart from being reset, and the
  model only resets them. `nightlyProtected` is written only by the reset and by `restoreFromSnapshot`, and
  the model does both.

## Findings

| source | as written | input that shows it | evidently intended | confidence | as-written member | corrected member |
|---|---|---|---|---|---|---|
| src/game-core/GameEngine.ts:50 | `_broadcastEvent` calls `player.role.onGameEvent` on every living role holder, but Villager, Witch, Hunter, Cupid and `LoverRoleDecorator` define `handleGameEvent` instead, so the call throws a TypeError | assign Villager to a player, then call `startFirstNight()` | roles without a reaction return no actions, and the broadcast only appends the event | not executed | EngineRules.BroadcastAsWrittenFails | EngineRules.Reactions |
| src/game-core/GameEngine.ts:143 | `submitGroupAction` calls `responsiblePlayer.role.createAction`, which `Villager` does not define, so the call throws a TypeError | assign Villager to a living player, then call `submitGroupAction("Villager", "p2")` | the Villager produces no action, so the call reports "Invalid action or payload for the group." | not executed | RoleBehaviour.CreateActionThrowsOnlyForVillager | RoleBehaviour.VillagerNeverActs |
| src/features/game-master/components/ControlPanel/FirstNightCard/index.tsx:92 | after a role is assigned on the first night, the card calls `playerWithRole.role.getActionOptions`, which Villager, Witch, Hunter, Cupid and `LoverRoleDecorator` do not define (they define `getUiContext`), so the call throws a TypeError; the Hunter's form (HunterActionForm.tsx:37) and the game hook (useGame.ts:278) make the same call | assign Villager to a player during the first night | the check reads `getUiContext` where `getActionOptions` is missing, so the Villager's empty record counts as "can act" | not executed | CanAct.CanActThrowsWithoutActionOptions | CanAct.VillagerAndWitchCanAct |
