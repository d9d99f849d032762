/**
 * The shared game state: the players, the phase and day, what happened
 * during the current night, the last Seer reading and the winner; and the
 * snapshot of it that the engine keeps for undo.
 */
module GameStates {
  import opened Basics
  import opened Roles
  import opened Players
  import opened OrderedMaps

  datatype SeerResult = SeerResult(targetId: PlayerId, targetName: string, revealedFaction: Faction)

  /** The value a GameState object holds at one moment. */
  datatype State = State(
    players: seq<PlayerRec>,
    phase: GamePhase,
    dayNumber: int,
    /** target id to killer id, in insertion order */
    nightlyKills: Entries<PlayerId, PlayerId>,
    nightlyProtected: seq<PlayerId>,
    nightlyHealed: Option<PlayerId>,
    nightlyPoisoned: Option<PlayerId>,
    playerOnTrial: Option<PlayerId>,
    lastSeerResult: Option<SeerResult>,
    winner: Option<Faction>)

  /** What a JavaScript Map and Set guarantee about the two collections. */
  predicate WellFormed(s: State)
  {
    UniqueKeys(s.nightlyKills) && NoDup(s.nightlyProtected)
  }

  /** A new game: Setup phase, day 0, an empty night, no winner. */
  function InitialState(ps: seq<PlayerRec>): State
  {
    State(ps, Setup, 0, [], [], None, None, None, None, None)
  }

  /** Updates the player at index `i`. */
  function WithPlayer(s: State, i: nat, p: PlayerRec): State
    requires i < |s.players|
  {
    s.(players := s.players[i := p])
  }

  /** Seat `i` with its lover set to `x`. */
  function SetLover(ps: seq<PlayerRec>, i: nat, x: Option<PlayerId>): (r: seq<PlayerRec>)
    requires i < |ps|
    ensures |r| == |ps| && r[i] == ps[i].(lover := x)
    ensures forall k :: 0 <= k < |ps| && k != i ==> r[k] == ps[k]
  {
    ps[i := ps[i].(lover := x)]
  }

  /** Seat `i` with its role set to `x`. */
  function SetRole(ps: seq<PlayerRec>, i: nat, x: Option<Role>): (r: seq<PlayerRec>)
    requires i < |ps|
    ensures |r| == |ps| && r[i] == ps[i].(role := x)
    ensures forall k :: 0 <= k < |ps| && k != i ==> r[k] == ps[k]
  {
    ps[i := ps[i].(role := x)]
  }

  function Unprotected(ps: seq<PlayerRec>): (r: seq<PlayerRec>)
    ensures |r| == |ps|
  {
    seq(|ps|, i requires 0 <= i < |ps| => ps[i].(isProtected := false))
  }

  /**
   * `resetNightlyActions`: the night's kills, protections, heal, poison,
   * trial and Seer reading are forgotten and nobody stays protected; nothing
   * else about the players or the game changes.
   */
  function ResetNightly(s: State): (r: State)
    ensures |r.players| == |s.players|
    ensures forall i :: 0 <= i < |r.players| ==> !r.players[i].isProtected
    ensures forall i :: 0 <= i < |r.players| ==> r.players[i].(isProtected := s.players[i].isProtected) == s.players[i]
    ensures r.nightlyKills == [] && r.nightlyProtected == []
    ensures r.nightlyHealed.None? && r.nightlyPoisoned.None? && r.playerOnTrial.None? && r.lastSeerResult.None?
    ensures (r.phase, r.dayNumber, r.winner) == (s.phase, s.dayNumber, s.winner)
    ensures WellFormed(r)
  {
    s.(players := Unprotected(s.players), nightlyKills := [], nightlyProtected := [],
       nightlyHealed := None, nightlyPoisoned := None, playerOnTrial := None, lastSeerResult := None)
  }

  /** Resetting an already reset night changes nothing. */
  lemma ResetNightlyIdempotent(s: State)
    ensures ResetNightly(ResetNightly(s)) == ResetNightly(s)
  {
  }

  // ---- Snapshots ----

  datatype RoleInfo = RoleInfo(name: string, faction: Faction)

  datatype PlayerSnapshot = PlayerSnapshot(
    id: PlayerId,
    name: string,
    isAlive: bool,
    isProtected: bool,
    isMarkedForDeath: bool,
    isSilenced: bool,
    role: Option<RoleInfo>,
    lover: Option<PlayerId>)

  datatype Snapshot = Snapshot(
    players: seq<PlayerSnapshot>,
    phase: GamePhase,
    dayNumber: int,
    nightlyKills: Entries<PlayerId, PlayerId>,
    nightlyProtected: seq<PlayerId>,
    nightlyHealed: Option<PlayerId>,
    nightlyPoisoned: Option<PlayerId>,
    lastSeerResult: Option<SeerResult>,
    winner: Option<Faction>)

  function RoleInfoOf(r: Role): RoleInfo
  {
    RoleInfo(Name(r), FactionOf(r))
  }

  function PlayerSnapshotOf(p: PlayerRec): PlayerSnapshot
  {
    PlayerSnapshot(p.id, p.name, p.isAlive, p.isProtected, p.isMarkedForDeath, p.isSilenced,
      if p.role.Some? then Some(RoleInfoOf(p.role.value)) else None, p.lover)
  }

  /** `createSnapshot`: a copy of every player's record and of the game's fields. */
  function TakeSnapshot(s: State): (snap: Snapshot)
    ensures |snap.players| == |s.players|
    ensures forall i :: 0 <= i < |s.players| ==> snap.players[i].id == s.players[i].id
  {
    Snapshot(
      seq(|s.players|, i requires 0 <= i < |s.players| => PlayerSnapshotOf(s.players[i])),
      s.phase, s.dayNumber, s.nightlyKills, s.nightlyProtected,
      s.nightlyHealed, s.nightlyPoisoned, s.lastSeerResult, s.winner)
  }

  function SavedIds(saved: seq<PlayerSnapshot>): (ids: seq<PlayerId>)
    ensures |ids| == |saved|
  {
    seq(|saved|, i requires 0 <= i < |saved| => saved[i].id)
  }

  /**
   * One player's part of `restoreFromSnapshot`: the first saved player with
   * the same id gives back the four status flags; name, role and lover stay.
   */
  function RestorePlayer(p: PlayerRec, saved: seq<PlayerSnapshot>): (r: PlayerRec)
    ensures r.(isAlive := p.isAlive, isProtected := p.isProtected,
               isMarkedForDeath := p.isMarkedForDeath, isSilenced := p.isSilenced) == p
  {
    var j := FirstIndex(SavedIds(saved), p.id);
    if j.Some? then
      var sp := saved[j.value];
      p.(isAlive := sp.isAlive, isProtected := sp.isProtected,
         isMarkedForDeath := sp.isMarkedForDeath, isSilenced := sp.isSilenced)
    else p
  }

  /**
   * The flags come from the first saved entry with the player's id; a
   * player whose id was not saved keeps its own.
   */
  lemma RestorePlayerFromFirstSaved(p: PlayerRec, saved: seq<PlayerSnapshot>)
    ensures (forall j :: 0 <= j < |saved| ==> saved[j].id != p.id) ==> RestorePlayer(p, saved) == p
    ensures forall j :: 0 <= j < |saved| && saved[j].id == p.id && (forall k :: 0 <= k < j ==> saved[k].id != p.id) ==>
      var r := RestorePlayer(p, saved);
      r.isAlive == saved[j].isAlive && r.isProtected == saved[j].isProtected &&
      r.isMarkedForDeath == saved[j].isMarkedForDeath && r.isSilenced == saved[j].isSilenced
  {
    var ids := SavedIds(saved);
    assert forall k :: 0 <= k < |saved| ==> ids[k] == saved[k].id;
  }

  function RestorePlayers(ps: seq<PlayerRec>, saved: seq<PlayerSnapshot>): (r: seq<PlayerRec>)
    ensures |r| == |ps| && forall i :: 0 <= i < |ps| ==> r[i] == RestorePlayer(ps[i], saved)
  {
    seq(|ps|, i requires 0 <= i < |ps| => RestorePlayer(ps[i], saved))
  }

  /**
   * `restoreFromSnapshot`: the players' flags and the game's fields come
   * from the snapshot; the kill map and protected set are rebuilt through
   * `new Map` and `new Set`. Names, roles, lovers and the player on trial
   * are not part of what is restored.
   */
  function Restore(s: State, snap: Snapshot): (r: State)
    ensures IdsOf(r.players) == IdsOf(s.players)
    ensures forall i :: 0 <= i < |s.players| ==>
      r.players[i].name == s.players[i].name && r.players[i].role == s.players[i].role &&
      r.players[i].lover == s.players[i].lover
    ensures r.playerOnTrial == s.playerOnTrial
    ensures r.phase == snap.phase && r.dayNumber == snap.dayNumber && r.winner == snap.winner
    ensures forall i :: 0 <= i < |s.players| ==> r.players[i] == RestorePlayer(s.players[i], snap.players)
    ensures r.nightlyKills == FromEntries(snap.nightlyKills) && r.nightlyProtected == Dedup(snap.nightlyProtected)
    ensures r.nightlyHealed == snap.nightlyHealed && r.nightlyPoisoned == snap.nightlyPoisoned
    ensures r.lastSeerResult == snap.lastSeerResult
    ensures WellFormed(r)
  {
    State(RestorePlayers(s.players, snap.players), snap.phase, snap.dayNumber,
      FromEntries(snap.nightlyKills), Dedup(snap.nightlyProtected),
      snap.nightlyHealed, snap.nightlyPoisoned, s.playerOnTrial, snap.lastSeerResult, snap.winner)
  }

  /** A player with the id of seat `i` of `s` gets back that seat's four flags from its snapshot. */
  lemma RestoreSavedPlayer(s: State, p: PlayerRec, i: nat)
    requires UniqueIds(s.players) && i < |s.players| && p.id == s.players[i].id
    ensures RestorePlayer(p, TakeSnapshot(s).players) ==
      s.players[i].(name := p.name, role := p.role, lover := p.lover)
  {
    var ids := SavedIds(TakeSnapshot(s).players);
    assert forall j :: 0 <= j < |ids| ==> ids[j] == s.players[j].id;
    assert FirstIndex(ids, p.id) == Some(i);
  }

  /**
   * Undoing to a snapshot of `s`, from any later state `t` with the same
   * players, gives `s` back, except for what restoring leaves alone: the
   * players' names, roles and lovers and the player on trial keep their
   * values from `t`.
   */
  lemma RestoreSnapshot(s: State, t: State)
    requires UniqueIds(s.players) && WellFormed(s)
    requires IdsOf(t.players) == IdsOf(s.players)
    ensures Restore(t, TakeSnapshot(s)) ==
      s.(players := seq(|s.players|, i requires 0 <= i < |s.players| =>
                        s.players[i].(name := t.players[i].name, role := t.players[i].role,
                                      lover := t.players[i].lover)),
         playerOnTrial := t.playerOnTrial)
  {
    var snap := TakeSnapshot(s);
    var r := Restore(t, snap);
    forall i | 0 <= i < |s.players|
      ensures r.players[i] == s.players[i].(name := t.players[i].name, role := t.players[i].role,
                                            lover := t.players[i].lover)
    {
      assert t.players[i].id == IdsOf(t.players)[i] == s.players[i].id;
      RestoreSavedPlayer(s, t.players[i], i);
    }
    FromEntriesOfMap(s.nightlyKills);
    DedupNoDup(s.nightlyProtected);
  }

  /** In particular, restoring a state from its own snapshot changes nothing. */
  lemma RestoreOwnSnapshot(s: State)
    requires UniqueIds(s.players) && WellFormed(s)
    ensures Restore(s, TakeSnapshot(s)) == s
  {
    RestoreSnapshot(s, s);
    assert s.players == seq(|s.players|, i requires 0 <= i < |s.players| =>
      s.players[i].(name := s.players[i].name, role := s.players[i].role, lover := s.players[i].lover));
  }

  class GameState {
    const players: seq<Player>
    var phase: GamePhase
    var dayNumber: int
    var nightlyKills: Entries<PlayerId, PlayerId>
    var nightlyProtected: seq<PlayerId>
    var nightlyHealed: Option<PlayerId>
    var nightlyPoisoned: Option<PlayerId>
    var playerOnTrial: Option<PlayerId>
    var lastSeerResult: Option<SeerResult>
    var winner: Option<Faction>

    ghost predicate Valid()
      reads this
    {
      Distinct(players) && UniqueKeys(nightlyKills) && NoDup(nightlyProtected)
    }

    function Abs(): State
      reads this, players
    {
      State(Recs(players), phase, dayNumber, nightlyKills, nightlyProtected,
        nightlyHealed, nightlyPoisoned, playerOnTrial, lastSeerResult, winner)
    }

    constructor (players: seq<Player>)
      requires Distinct(players)
      ensures this.players == players && Valid()
      ensures Abs() == InitialState(Recs(players))
    {
      this.players := players;
      phase := Setup;
      dayNumber := 0;
      nightlyKills := [];
      nightlyProtected := [];
      nightlyHealed := None;
      nightlyPoisoned := None;
      playerOnTrial := None;
      lastSeerResult := None;
      winner := None;
    }

    /** `getPlayerById`: the first player object with that id. */
    function GetPlayerById(id: PlayerId): (r: Option<Player>)
      reads this, players
      ensures r.Some? <==> Find(Abs().players, id).Some?
      ensures r.Some? ==> r.value == players[Find(Abs().players, id).value]
    {
      IdsOfRecs(players);
      var i := FirstIndex(PlayerIds(players), id);
      if i.Some? then Some(players[i.value]) else None
    }

    /** `getLivingPlayers`: the living player objects, in seating order. */
    function GetLivingPlayers(): (r: seq<Player>)
      reads this, players
      ensures forall i :: 0 <= i < |r| ==> r[i] in players && r[i].isAlive
      ensures Recs(r) == Living(Abs().players)
    {
      LivingPlayers(players)
    }

    /** Sets the lover of player `q`, seated at index `i`. */
    method SetLoverOf(q: Player, ghost i: nat, x: Option<PlayerId>)
      requires Valid() && i < |players| && players[i] == q
      modifies q
      ensures Valid() && Abs() == old(Abs()).(players := SetLover(old(Abs()).players, i, x))
    {
      q.lover := x;
      assert Recs(players) == SetLover(old(Recs(players)), i, x);
    }

    /** Sets the role of player `q`, seated at index `i`. */
    method SetRoleOf(q: Player, ghost i: nat, x: Option<Role>)
      requires Valid() && i < |players| && players[i] == q
      modifies q
      ensures Valid() && Abs() == old(Abs()).(players := SetRole(old(Abs()).players, i, x))
    {
      q.role := x;
      assert Recs(players) == SetRole(old(Recs(players)), i, x);
    }

    /** Sets the death mark of player `q`, seated at index `i`. */
    method SetMarkOf(q: Player, ghost i: nat, b: bool)
      requires Valid() && i < |players| && players[i] == q
      modifies q
      ensures Valid() && Abs() == WithPlayer(old(Abs()), i, old(Abs()).players[i].(isMarkedForDeath := b))
    {
      q.isMarkedForDeath := b;
      assert Recs(players) == old(Recs(players))[i := old(Recs(players))[i].(isMarkedForDeath := b)];
    }

    /** Sets whether player `q`, seated at index `i`, is alive. */
    method SetAliveOf(q: Player, ghost i: nat, b: bool)
      requires Valid() && i < |players| && players[i] == q
      modifies q
      ensures Valid() && Abs() == WithPlayer(old(Abs()), i, old(Abs()).players[i].(isAlive := b))
    {
      q.isAlive := b;
      assert Recs(players) == old(Recs(players))[i := old(Recs(players))[i].(isAlive := b)];
    }

    /** Sets whether player `q`, seated at index `i`, is protected. */
    method SetProtectedOf(q: Player, ghost i: nat, b: bool)
      requires Valid() && i < |players| && players[i] == q
      modifies q
      ensures Valid() && Abs() == WithPlayer(old(Abs()), i, old(Abs()).players[i].(isProtected := b))
    {
      q.isProtected := b;
      assert Recs(players) == old(Recs(players))[i := old(Recs(players))[i].(isProtected := b)];
    }

    /** Sets the night's healed player. */
    method SetNightlyHealed(x: Option<PlayerId>)
      requires Valid()
      modifies this
      ensures Valid() && Abs() == old(Abs()).(nightlyHealed := x)
    {
      nightlyHealed := x;
    }

    /** Sets the night's poisoned player. */
    method SetNightlyPoisoned(x: Option<PlayerId>)
      requires Valid()
      modifies this
      ensures Valid() && Abs() == old(Abs()).(nightlyPoisoned := x)
    {
      nightlyPoisoned := x;
    }

    /** Replaces the night's kill list. */
    method SetNightlyKills(x: Entries<PlayerId, PlayerId>)
      requires Valid() && UniqueKeys(x)
      modifies this
      ensures Valid() && Abs() == old(Abs()).(nightlyKills := x)
    {
      nightlyKills := x;
    }

    method ResetNightlyActions()
      requires Valid()
      modifies this, players
      ensures Valid()
      ensures Abs() == ResetNightly(old(Abs()))
    {
      nightlyKills := [];
      nightlyProtected := [];
      nightlyHealed := None;
      nightlyPoisoned := None;
      playerOnTrial := None;
      lastSeerResult := None;
      for k := 0 to |players|
        invariant forall j :: 0 <= j < |players| ==>
          players[j].Rec() == if j < k then old(players[j].Rec()).(isProtected := false)
                              else old(players[j].Rec())
        invariant (phase, dayNumber, winner) == old((phase, dayNumber, winner))
        invariant nightlyKills == [] && nightlyProtected == [] && nightlyHealed == None
        invariant nightlyPoisoned == None && playerOnTrial == None && lastSeerResult == None
      {
        players[k].isProtected := false;
      }
    }

    function CreateSnapshot(): Snapshot
      reads this, players
    {
      TakeSnapshot(Abs())
    }

    /** The `players.forEach` part of `restoreFromSnapshot`. */
    method RestorePlayerFlags(saved: seq<PlayerSnapshot>)
      requires Valid()
      modifies players
      ensures Recs(players) == RestorePlayers(old(Recs(players)), saved)
    {
      var savedIds := SavedIds(saved);
      for k := 0 to |players|
        invariant forall j :: 0 <= j < |players| ==>
          players[j].Rec() == if j < k then RestorePlayer(old(players[j].Rec()), saved)
                              else old(players[j].Rec())
      {
        RestoreOne(players[k], saved, savedIds);
      }
    }

    /** The loop body: the first saved entry with the player's id, if any, gives back its flags. */
    static method RestoreOne(player: Player, saved: seq<PlayerSnapshot>, savedIds: seq<PlayerId>)
      requires savedIds == SavedIds(saved)
      modifies player
      ensures player.Rec() == RestorePlayer(old(player.Rec()), saved)
    {
      var j := FirstIndex(savedIds, player.id);
      if j.Some? {
        var sp := saved[j.value];
        player.isAlive := sp.isAlive;
        player.isProtected := sp.isProtected;
        player.isMarkedForDeath := sp.isMarkedForDeath;
        player.isSilenced := sp.isSilenced;
      }
    }

    method RestoreFromSnapshot(snapshot: Snapshot)
      requires Valid()
      modifies this, players
      ensures Valid()
      ensures Abs() == Restore(old(Abs()), snapshot)
    {
      RestorePlayerFlags(snapshot.players);
      phase := snapshot.phase;
      dayNumber := snapshot.dayNumber;
      nightlyKills := FromEntries(snapshot.nightlyKills);
      nightlyProtected := Dedup(snapshot.nightlyProtected);
      nightlyHealed := snapshot.nightlyHealed;
      nightlyPoisoned := snapshot.nightlyPoisoned;
      lastSeerResult := snapshot.lastSeerResult;
      winner := snapshot.winner;
    }
  }
}
