/**
 * The structured game log: an append-only list of entries, each stamped
 * with the phase and day it was written in, that is either an ACTION entry
 * (who did what) or a GAME_EVENT entry (role assignment, night and day
 * transitions, votes, the end of the game). The queries are filters over
 * the log's value; the class only appends to it and clears it.
 */
module History {
  import opened Basics
  import opened Text
  import opened Players
  import opened GameStates
  import opened Actions

  datatype EntryType = ActionEntry | GameEventEntry

  /** One member of a group action, as `{ id, name }`. */
  datatype Member = Member(id: PlayerId, name: string)

  /**
   * The `eventData` object of an entry: the details of an action, or the
   * record the engine passes with each kind of game event. Players in event
   * data are given by id.
   */
  datatype EventData =
    | ActionDetails(actionPayload: map<string, string>, seerResult: Option<SeerResult>,
                    isGroupAction: bool, groupMembers: Option<seq<Member>>)
    | FirstNightStarted(day: int)
    | RoleAssigned(roleName: string, playerNames: seq<string>, count: nat)
    | NightEnded(deadPlayers: seq<PlayerId>, totalDeaths: nat, endedDay: int)
    | DayStarted(startedDay: int)
    | VotingEnded(votedOutPlayer: Option<PlayerId>, votingDay: int)
    | NightStarted(nightDay: int)
    | GameEnded(winner: Faction)

  /** A log entry without its timestamp; absent optional fields are None. */
  datatype HistoryEntry = HistoryEntry(
    phase: GamePhase,
    dayNumber: int,
    entryType: EntryType,
    actorId: Option<string>,
    actorName: Option<string>,
    roleName: Option<string>,
    actionType: Option<string>,
    eventType: Option<string>,
    eventData: Option<EventData>,
    message: Option<string>)

  function ActorNames(actors: seq<PlayerRec>): (ns: seq<string>)
    ensures |ns| == |actors|
    ensures forall i :: 0 <= i < |actors| ==> ns[i] == actors[i].name
  {
    seq(|actors|, i requires 0 <= i < |actors| => actors[i].name)
  }

  function Members(actors: seq<PlayerRec>): (ms: seq<Member>)
    ensures |ms| == |actors|
    ensures forall i :: 0 <= i < |actors| ==> ms[i] == Member(actors[i].id, actors[i].name)
  {
    seq(|actors|, i requires 0 <= i < |actors| => Member(actors[i].id, actors[i].name))
  }

  /**
   * The entry `addActionEntry(action, actors, gameState)` appends. It is
   * stamped with the state's phase and day; it is a group entry exactly when
   * there is more than one actor, and only then lists the members; it
   * carries the state's seer result only for a SeeAction.
   */
  function ActionEntryOf(a: Action, actors: seq<PlayerRec>, s: State): (e: HistoryEntry)
    requires |actors| > 0
    ensures e.entryType == ActionEntry && e.phase == s.phase && e.dayNumber == s.dayNumber
    ensures e.actionType == Some(TypeName(a)) && e.roleName == RoleNameOf(actors[0])
    ensures e.eventType == None && e.eventData.Some? && e.eventData.value.ActionDetails?
    ensures e.eventData.value.actionPayload == Serialize(a).payload
    ensures e.eventData.value.isGroupAction <==> |actors| > 1
    ensures e.eventData.value.groupMembers.Some? <==> |actors| > 1
    ensures e.eventData.value.groupMembers.Some? ==> |e.eventData.value.groupMembers.value| == |actors|
    ensures e.eventData.value.seerResult.Some? ==> a.See? && e.eventData.value.seerResult == s.lastSeerResult
    ensures a.See? ==> e.eventData.value.seerResult == s.lastSeerResult
  {
    var isGroupAction := |actors| > 1;
    HistoryEntry(
      s.phase,
      s.dayNumber,
      ActionEntry,
      Some(if isGroupAction then Join(IdsOf(actors), ",") else actors[0].id),
      Some(Join(ActorNames(actors), ", ")),
      RoleNameOf(actors[0]),
      Some(TypeName(a)),
      None,
      Some(ActionDetails(
        Serialize(a).payload,
        if TypeName(a) == "SeeAction" then s.lastSeerResult else None,
        isGroupAction,
        if isGroupAction then Some(Members(actors)) else None)),
      None)
  }

  /**
   * The actor ids can be read back from `actorId` by splitting at ',',
   * for one actor as for many, as long as no id contains a comma.
   */
  lemma ActorIdsRecoverable(a: Action, actors: seq<PlayerRec>, s: State)
    requires |actors| > 0
    requires forall i :: 0 <= i < |actors| ==> ',' !in actors[i].id
    ensures Split(ActionEntryOf(a, actors, s).actorId.value, ',') == IdsOf(actors)
  {
    var ids := IdsOf(actors);
    if |actors| > 1 {
      assert "," == [','];
      SplitJoin(ids, ',');
    } else {
      SplitPlain(actors[0].id, ',');
    }
  }

  /** The entry `addGameEvent(eventType, gameState, eventData, message)` appends. */
  function GameEventOf(eventType: string, s: State, data: Option<EventData>, message: Option<string>): (e: HistoryEntry)
    ensures e.entryType == GameEventEntry && e.phase == s.phase && e.dayNumber == s.dayNumber
    ensures e.eventType == Some(eventType) && e.eventData == data && e.message == message
    ensures e.actorId == None && e.roleName == None && e.actionType == None
  {
    HistoryEntry(s.phase, s.dayNumber, GameEventEntry, None, None, None, None, Some(eventType), data, message)
  }

  // ---- queries ----

  /** `es.filter(keep)`. */
  function Select(es: seq<HistoryEntry>, keep: HistoryEntry -> bool): (r: seq<HistoryEntry>)
    ensures |r| <= |es|
  {
    if |es| == 0 then []
    else (if keep(es[0]) then [es[0]] else []) + Select(es[1..], keep)
  }

  /** The filter keeps exactly the entries that pass the test. */
  lemma {:induction false} SelectMembers(es: seq<HistoryEntry>, keep: HistoryEntry -> bool)
    ensures forall e :: e in Select(es, keep) <==> e in es && keep(e)
  {
    if |es| > 0 {
      SelectMembers(es[1..], keep);
      assert es == [es[0]] + es[1..];
    }
  }

  /** Filtering keeps the order of the log: it distributes over concatenation. */
  lemma {:induction false} SelectAppend(a: seq<HistoryEntry>, b: seq<HistoryEntry>, keep: HistoryEntry -> bool)
    ensures Select(a + b, keep) == Select(a, keep) + Select(b, keep)
  {
    if |a| > 0 {
      assert (a + b)[0] == a[0] && (a + b)[1..] == a[1..] + b;
      SelectAppend(a[1..], b, keep);
      var head := if keep(a[0]) then [a[0]] else [];
      assert Select(a + b, keep) == head + Select(a[1..] + b, keep);
      assert Select(a, keep) == head + Select(a[1..], keep);
    } else {
      assert a + b == b;
    }
  }

  /** Two filters in a row are one filter by the conjunction. */
  lemma {:induction false} SelectSelect(es: seq<HistoryEntry>, f: HistoryEntry -> bool, g: HistoryEntry -> bool,
                                        both: HistoryEntry -> bool)
    requires forall e :: both(e) == (f(e) && g(e))
    ensures Select(Select(es, f), g) == Select(es, both)
  {
    if |es| > 0 {
      SelectSelect(es[1..], f, g, both);
      SelectAppend(if f(es[0]) then [es[0]] else [], Select(es[1..], f), g);
    }
  }

  function IsAction(e: HistoryEntry): bool
  {
    e.entryType == ActionEntry
  }

  function IsGameEvent(e: HistoryEntry): bool
  {
    e.entryType == GameEventEntry
  }

  /** `getActionEntries()`. */
  function ActionEntries(es: seq<HistoryEntry>): (r: seq<HistoryEntry>)
    ensures forall e :: e in r <==> e in es && e.entryType == ActionEntry
  {
    SelectMembers(es, IsAction);
    Select(es, IsAction)
  }

  /** `getGameEventEntries()`. */
  function GameEventEntries(es: seq<HistoryEntry>): (r: seq<HistoryEntry>)
    ensures forall e :: e in r <==> e in es && e.entryType == GameEventEntry
  {
    SelectMembers(es, IsGameEvent);
    Select(es, IsGameEvent)
  }

  /** Every entry is in exactly one of the two lists, each in log order. */
  lemma {:induction false} ActionsAndEventsPartition(es: seq<HistoryEntry>)
    ensures |ActionEntries(es)| + |GameEventEntries(es)| == |es|
    ensures multiset(ActionEntries(es)) + multiset(GameEventEntries(es)) == multiset(es)
  {
    if |es| > 0 {
      ActionsAndEventsPartition(es[1..]);
      assert es == [es[0]] + es[1..];
    }
  }

  /** The test of `getEntriesByPhase`: that phase, and that day if one is given. */
  function InPhase(phase: GamePhase, day: Option<int>): HistoryEntry -> bool
  {
    (e: HistoryEntry) => e.phase == phase && (day.None? || e.dayNumber == day.value)
  }

  /** `getEntriesByPhase(phase, dayNumber?)`. */
  function ByPhase(es: seq<HistoryEntry>, phase: GamePhase, day: Option<int>): (r: seq<HistoryEntry>)
    ensures forall e :: e in r <==> e in es && e.phase == phase && (day.None? || e.dayNumber == day.value)
  {
    SelectMembers(es, InPhase(phase, day));
    Select(es, InPhase(phase, day))
  }

  function HasRole(roleName: string): HistoryEntry -> bool
  {
    (e: HistoryEntry) => e.roleName == Some(roleName)
  }

  /** `getEntriesByRole(roleName)`: game events, which carry no role, never match. */
  function ByRole(es: seq<HistoryEntry>, roleName: string): (r: seq<HistoryEntry>)
    ensures forall e :: e in r <==> e in es && e.roleName == Some(roleName)
  {
    SelectMembers(es, HasRole(roleName));
    Select(es, HasRole(roleName))
  }

  /** The single test the last-night lookup amounts to. */
  function NightActionOf(day: int): HistoryEntry -> bool
  {
    (e: HistoryEntry) => e.phase == Night && e.dayNumber == day && e.entryType == ActionEntry
  }

  /** `Math.max(...es.map(e => e.dayNumber))`. */
  function MaxDay(es: seq<HistoryEntry>): (m: int)
    requires |es| > 0
    ensures forall i :: 0 <= i < |es| ==> es[i].dayNumber <= m
    ensures exists i :: 0 <= i < |es| && es[i].dayNumber == m
  {
    if |es| == 1 then es[0].dayNumber
    else
      var rest := MaxDay(es[1..]);
      assert forall i :: 1 <= i < |es| ==> es[i] == es[1..][i - 1];
      if es[0].dayNumber >= rest then es[0].dayNumber else rest
  }

  /**
   * `getLastNightActions()`: the action entries written during the night
   * of the day before the latest day in the log; nothing for an empty log
   * or when the latest day is before day 1.
   */
  function LastNightActions(es: seq<HistoryEntry>): (r: seq<HistoryEntry>)
    ensures |es| == 0 ==> r == []
    ensures |es| > 0 && MaxDay(es) < 1 ==> r == []
    ensures |es| > 0 && MaxDay(es) >= 1 ==>
      forall e :: e in r <==> e in es && e.entryType == ActionEntry && e.phase == Night && e.dayNumber == MaxDay(es) - 1
  {
    if |es| == 0 then []
    else
      var lastNightDay := MaxDay(es) - 1;
      if lastNightDay < 0 then [] else NightActionsOn(es, lastNightDay)
  }

  /** The night entries of day `d` (`getEntriesByPhase`), then only the actions among them. */
  function NightActionsOn(es: seq<HistoryEntry>, d: int): (r: seq<HistoryEntry>)
    ensures forall e :: e in r <==> e in es && e.entryType == ActionEntry && e.phase == Night && e.dayNumber == d
  {
    SelectMembers(ByPhase(es, Night, Some(d)), IsAction);
    Select(ByPhase(es, Night, Some(d)), IsAction)
  }

  /** The phase-and-day filter followed by the action filter is the single night-action filter. */
  lemma {:induction false} NightFiltersFuse(es: seq<HistoryEntry>, d: int)
    ensures NightActionsOn(es, d) == Select(es, NightActionOf(d))
  {
    var byPhase := ByPhase(es, Night, Some(d));
    var byTest := Select(es, InPhase(Night, Some(d)));
    assert byPhase == byTest;
    SelectSelect(es, InPhase(Night, Some(d)), IsAction, NightActionOf(d));
  }

  /** The two filters of the last-night lookup are one filter, so its result keeps log order. */
  lemma {:induction false} LastNightInLogOrder(es: seq<HistoryEntry>)
    requires |es| > 0 && MaxDay(es) >= 1
    ensures LastNightActions(es) == Select(es, NightActionOf(MaxDay(es) - 1))
  {
    var d := MaxDay(es) - 1;
    assert LastNightActions(es) == NightActionsOn(es, d);
    NightFiltersFuse(es, d);
  }

  /**
   * Appending one entry to the log adds it at the end of the action list or
   * of the game-event list, whichever it belongs to, and leaves the earlier
   * results as they were.
   */
  lemma AppendExtendsKinds(es: seq<HistoryEntry>, e: HistoryEntry)
    ensures ActionEntries(es + [e]) == ActionEntries(es) + (if IsAction(e) then [e] else [])
    ensures GameEventEntries(es + [e]) == GameEventEntries(es) + (if IsGameEvent(e) then [e] else [])
  {
    SelectAppend(es, [e], IsAction);
    SelectAppend(es, [e], IsGameEvent);
  }

  /** Appending one entry extends a phase query exactly when the entry is of that phase (and day). */
  lemma AppendExtendsByPhase(es: seq<HistoryEntry>, e: HistoryEntry, phase: GamePhase, day: Option<int>)
    ensures ByPhase(es + [e], phase, day) ==
      ByPhase(es, phase, day) + (if e.phase == phase && (day.None? || e.dayNumber == day.value) then [e] else [])
  {
    SelectAppend(es, [e], InPhase(phase, day));
  }

  /** Appending one entry extends a role query exactly when the entry names that role. */
  lemma AppendExtendsByRole(es: seq<HistoryEntry>, e: HistoryEntry, name: string)
    ensures ByRole(es + [e], name) == ByRole(es, name) + (if e.roleName == Some(name) then [e] else [])
  {
    SelectAppend(es, [e], HasRole(name));
  }

  /** The log object: the engine appends to it and resets it. */
  class GameHistory {
    var entries: seq<HistoryEntry>

    constructor ()
      ensures entries == []
    {
      entries := [];
    }

    /** `addActionEntry`: one action entry goes at the end; nothing before it changes. */
    method AddActionEntry(a: Action, actors: seq<Player>, gs: GameState)
      requires |actors| > 0
      modifies this
      ensures gs.Abs() == old(gs.Abs()) && Recs(actors) == old(Recs(actors))
      ensures entries == old(entries) + [ActionEntryOf(a, Recs(actors), gs.Abs())]
    {
      entries := entries + [ActionEntryOf(a, Recs(actors), gs.Abs())];
    }

    /** `addGameEvent`: one game-event entry goes at the end. */
    method AddGameEvent(eventType: string, gs: GameState, data: Option<EventData>, message: Option<string>)
      modifies this
      ensures gs.Abs() == old(gs.Abs())
      ensures entries == old(entries) + [GameEventOf(eventType, gs.Abs(), data, message)]
    {
      entries := entries + [GameEventOf(eventType, gs.Abs(), data, message)];
    }

    /** `clear()`. */
    method Clear()
      modifies this
      ensures entries == []
    {
      entries := [];
    }
  }
}
