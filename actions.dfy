/**
 * The seven night and day actions, each a command object that changes the
 * game state when executed and remembers, in private fields, what it needs
 * to take the change back. `Apply` and `Revert` say what `execute` and
 * `undo` do to the value of the state; class `Command` does it in place.
 */
module Actions {
  import opened Basics
  import opened Roles
  import opened Players
  import opened OrderedMaps
  import opened GameStates

  /** An action and its constructor arguments. */
  datatype Action =
    | Kill(targetId: PlayerId, killerId: PlayerId)
    | Protect(targetId: PlayerId)
    | Heal(targetId: PlayerId)
    | Poison(targetId: PlayerId)
    | See(targetId: PlayerId, seerId: PlayerId)
    | Couple(player1Id: PlayerId, player2Id: PlayerId)
    | Shoot(targetId: PlayerId, shooterId: PlayerId)

  /** The `previous…` fields an action fills in when `execute` takes effect. */
  datatype Memo =
    | MarkMemo(wasMarked: bool)
    | ProtectMemo(wasProtected: bool)
    | HealMemo(previousHealed: Option<PlayerId>)
    | SeeMemo(previousResult: Option<SeerResult>)
    | CoupleMemo(lover1: Option<PlayerId>, lover2: Option<PlayerId>, role1: Option<Role>, role2: Option<Role>)
    | AliveMemo(wasAlive: bool)

  /** Which memo belongs to which action. */
  predicate Fits(a: Action, m: Memo)
  {
    match a
    case Kill(_, _) => m.MarkMemo?
    case Protect(_) => m.ProtectMemo?
    case Heal(_) => m.HealMemo?
    case Poison(_) => m.MarkMemo?
    case See(_, _) => m.SeeMemo?
    case Couple(_, _) => m.CoupleMemo?
    case Shoot(_, _) => m.AliveMemo?
  }

  // ---- execute, on values ----

  /** Only the death mark of the player with id `t`, if any, differs. */
  predicate OnlyMarkOf(s: State, r: State, t: PlayerId)
  {
    |r.players| == |s.players| &&
    forall j :: 0 <= j < |s.players| ==>
      r.players[j].(isMarkedForDeath := s.players[j].isMarkedForDeath) == s.players[j] &&
      (r.players[j].isMarkedForDeath != s.players[j].isMarkedForDeath ==> s.players[j].id == t)
  }

  /**
   * KillAction.execute: a living target is recorded in the night's kills
   * against the killer; it is marked for death unless it is protected. A
   * missing or dead target changes nothing.
   */
  function ExecKill(s: State, t: PlayerId, k: PlayerId): (r: State)
    ensures OnlyMarkOf(s, r, t)
    ensures Find(s.players, t).None? || !s.players[Find(s.players, t).value].isAlive ==> r == s
    ensures Find(s.players, t).Some? && s.players[Find(s.players, t).value].isAlive ==>
      var i := Find(s.players, t).value;
      r == s.(players := r.players, nightlyKills := Put(s.nightlyKills, t, k)) &&
      r.players[i].isMarkedForDeath == (s.players[i].isMarkedForDeath || !s.players[i].isProtected)
  {
    var i := Find(s.players, t);
    if i.None? || !s.players[i.value].isAlive then s
    else if s.players[i.value].isProtected then s.(nightlyKills := Put(s.nightlyKills, t, k))
    else
      WithPlayer(s, i.value, s.players[i.value].(isMarkedForDeath := true))
        .(nightlyKills := Put(s.nightlyKills, t, k))
  }

  /** ProtectAction.execute: an existing target, dead or alive, becomes protected. */
  function ExecProtect(s: State, t: PlayerId): (r: State)
    ensures |r.players| == |s.players|
    ensures forall j :: 0 <= j < |s.players| ==>
      r.players[j] == if s.players[j].id == t && Find(s.players, t) == Some(j)
                      then s.players[j].(isProtected := true) else s.players[j]
    ensures r == s.(players := r.players)
  {
    var i := Find(s.players, t);
    if i.None? then s else WithPlayer(s, i.value, s.players[i.value].(isProtected := true))
  }

  /**
   * HealAction.execute: for an existing target, dead or alive, the night's
   * heal points at it and its death mark is cleared.
   */
  function ExecHeal(s: State, t: PlayerId): (r: State)
    ensures OnlyMarkOf(s, r, t)
    ensures Find(s.players, t).None? ==> r == s
    ensures Find(s.players, t).Some? ==>
      r == s.(players := r.players, nightlyHealed := Some(t)) &&
      !r.players[Find(s.players, t).value].isMarkedForDeath
  {
    var i := Find(s.players, t);
    if i.None? then s
    else
      var healed := s.(nightlyHealed := Some(t));
      if s.players[i.value].isMarkedForDeath
      then WithPlayer(healed, i.value, s.players[i.value].(isMarkedForDeath := false))
      else healed
  }

  /**
   * PoisonAction.execute: a living target is marked for death (protection
   * does not help) and the night's poison points at it.
   */
  function ExecPoison(s: State, t: PlayerId): (r: State)
    ensures OnlyMarkOf(s, r, t)
    ensures Find(s.players, t).None? || !s.players[Find(s.players, t).value].isAlive ==> r == s
    ensures Find(s.players, t).Some? && s.players[Find(s.players, t).value].isAlive ==>
      r == s.(players := r.players, nightlyPoisoned := Some(t)) &&
      r.players[Find(s.players, t).value].isMarkedForDeath
  {
    var i := Find(s.players, t);
    if i.None? || !s.players[i.value].isAlive then s
    else
      WithPlayer(s, i.value, s.players[i.value].(isMarkedForDeath := true))
        .(nightlyPoisoned := Some(t))
  }

  /** The condition under which SeeAction.execute reads a faction. */
  predicate SeeApplies(s: State, t: PlayerId, seer: PlayerId)
  {
    Find(s.players, t).Some? && Find(s.players, seer).Some? &&
    s.players[Find(s.players, t).value].role.Some?
  }

  /**
   * SeeAction.execute: when target and seer exist and the target has a
   * role, the Seer's result names the target and its current faction
   * (Lovers once Cupid has decorated it). Nothing else changes.
   */
  function ExecSee(s: State, t: PlayerId, seer: PlayerId): (r: State)
    ensures r == s.(lastSeerResult := r.lastSeerResult)
    ensures !SeeApplies(s, t, seer) ==> r == s
    ensures SeeApplies(s, t, seer) ==>
      var p := s.players[Find(s.players, t).value];
      r.lastSeerResult == Some(SeerResult(t, p.name, FactionOf(p.role.value)))
  {
    if SeeApplies(s, t, seer) then
      var p := s.players[Find(s.players, t).value];
      s.(lastSeerResult := Some(SeerResult(p.id, p.name, FactionOf(p.role.value))))
    else s
  }

  /**
   * CoupleAction.execute: when both players exist each becomes the other's
   * lover; if both have roles of different factions both roles are wrapped
   * in the Lovers decorator. Names, flags and everyone else stay as they were.
   */
  function ExecCouple(s: State, a: PlayerId, b: PlayerId): (r: State)
    ensures |r.players| == |s.players|
    ensures r == s.(players := r.players)
    ensures forall j :: 0 <= j < |s.players| ==>
      SameButPairing(r.players[j], s.players[j]) && RoleNameOf(r.players[j]) == RoleNameOf(s.players[j])
    ensures Find(s.players, a).None? || Find(s.players, b).None? ==> r == s
    ensures Find(s.players, a).Some? && Find(s.players, b).Some? ==>
      var i := Find(s.players, a).value;
      var j := Find(s.players, b).value;
      var (r1, r2) := (s.players[i].role, s.players[j].role);
      var differ := r1.Some? && r2.Some? && FactionOf(r1.value) != FactionOf(r2.value);
      r.players[j].lover == Some(a) && (i != j ==> r.players[i].lover == Some(b)) &&
      (forall k :: 0 <= k < |s.players| && k != i && k != j ==> r.players[k] == s.players[k]) &&
      r.players[i].role == (if differ then Some(Decorate(r1.value)) else r1) &&
      r.players[j].role == (if differ then Some(Decorate(r2.value)) else r2)
  {
    var i := Find(s.players, a);
    var j := Find(s.players, b);
    if i.None? || j.None? then s
    else
      var (i, j) := (i.value, j.value);
      var (r1, r2) := (s.players[i].role, s.players[j].role);
      var differ := r1.Some? && r2.Some? && FactionOf(r1.value) != FactionOf(r2.value);
      s.(players := CoupleSeats(s.players, i, j, a, b, differ))
  }

  /** The two seats agree on everything except lover and role. */
  predicate SameButPairing(p: PlayerRec, q: PlayerRec)
  {
    p.id == q.id && p.name == q.name && p.isAlive == q.isAlive &&
    p.isMarkedForDeath == q.isMarkedForDeath && p.isProtected == q.isProtected &&
    p.isSilenced == q.isSilenced
  }

  /**
   * The player updates of CoupleAction.execute, in order: the first player
   * takes the second as lover, then the second takes the first; with
   * `differ` each role is then wrapped in the decorator.
   */
  function CoupleSeats(ps: seq<PlayerRec>, i: nat, j: nat, a: PlayerId, b: PlayerId, differ: bool): (r: seq<PlayerRec>)
    requires i < |ps| && j < |ps|
    requires differ ==> i != j && ps[i].role.Some? && ps[j].role.Some?
    ensures |r| == |ps|
    ensures forall k :: 0 <= k < |ps| && k != i && k != j ==> r[k] == ps[k]
    ensures r[j].lover == Some(a) && (i != j ==> r[i].lover == Some(b))
    ensures r[i].role == (if differ then Some(Decorate(ps[i].role.value)) else ps[i].role)
    ensures r[j].role == (if differ then Some(Decorate(ps[j].role.value)) else ps[j].role)
    ensures forall k :: 0 <= k < |ps| ==> SameButPairing(r[k], ps[k]) && RoleNameOf(r[k]) == RoleNameOf(ps[k])
  {
    var ps2 := SetLover(SetLover(ps, i, Some(b)), j, Some(a));
    if differ then
      var ps3 := SetRole(ps2, i, Some(Decorate(ps[i].role.value)));
      SetRole(ps3, j, Some(Decorate(ps[j].role.value)))
    else ps2
  }

  /** ShootAction.execute: a living target dies at once. */
  function ExecShoot(s: State, t: PlayerId): (r: State)
    ensures |r.players| == |s.players|
    ensures r == s.(players := r.players)
    ensures forall j :: 0 <= j < |s.players| ==>
      r.players[j].(isAlive := s.players[j].isAlive) == s.players[j] &&
      r.players[j].isAlive == (s.players[j].isAlive && Find(s.players, t) != Some(j))
  {
    var i := Find(s.players, t);
    if i.None? || !s.players[i.value].isAlive then s
    else WithPlayer(s, i.value, s.players[i.value].(isAlive := false))
  }

  /** `action.execute(gameState)`, on the value of the state. */
  function Apply(s: State, a: Action): (r: State)
    ensures IdsOf(r.players) == IdsOf(s.players)
    ensures forall j :: 0 <= j < |s.players| ==>
      r.players[j].name == s.players[j].name &&
      RoleNameOf(r.players[j]) == RoleNameOf(s.players[j]) &&
      (!a.Shoot? ==> r.players[j].isAlive == s.players[j].isAlive)
    ensures (r.phase, r.dayNumber, r.winner, r.playerOnTrial, r.nightlyProtected) ==
            (s.phase, s.dayNumber, s.winner, s.playerOnTrial, s.nightlyProtected)
    ensures WellFormed(s) ==> WellFormed(r)
  {
    match a
    case Kill(t, k) => ExecKill(s, t, k)
    case Protect(t) => ExecProtect(s, t)
    case Heal(t) => ExecHeal(s, t)
    case Poison(t) => ExecPoison(s, t)
    case See(t, seer) => ExecSee(s, t, seer)
    case Couple(p1, p2) => ExecCouple(s, p1, p2)
    case Shoot(t, _) => ExecShoot(s, t)
  }

  /** None of the actions is a ShootAction: the only action that kills outright. */
  predicate NoShoot(acts: seq<Action>)
  {
    forall k :: 0 <= k < |acts| ==> !acts[k].Shoot?
  }

  /** Executing a list of actions in order. */
  function ApplyAll(s: State, acts: seq<Action>): (r: State)
    ensures IdsOf(r.players) == IdsOf(s.players)
    ensures (r.phase, r.dayNumber, r.winner) == (s.phase, s.dayNumber, s.winner)
    ensures WellFormed(s) ==> WellFormed(r)
    ensures NoShoot(acts) ==>
      forall j :: 0 <= j < |s.players| ==>
        r.players[j].isAlive == s.players[j].isAlive && RoleNameOf(r.players[j]) == RoleNameOf(s.players[j])
    decreases |acts|
  {
    if |acts| == 0 then s
    else ApplyAll(Apply(s, acts[0]), acts[1..])
  }

  lemma {:induction false} ApplyAllSnoc(s: State, acts: seq<Action>, a: Action)
    ensures ApplyAll(s, acts + [a]) == Apply(ApplyAll(s, acts), a)
    decreases |acts|
  {
    if |acts| > 0 {
      assert (acts + [a])[1..] == acts[1..] + [a];
      ApplyAllSnoc(Apply(s, acts[0]), acts[1..], a);
    }
  }

  /** The death-mark memo of KillAction and PoisonAction: saved only for a living target. */
  function MarkRecord(s: State, t: PlayerId): Option<Memo>
  {
    var i := Find(s.players, t);
    if i.Some? && s.players[i.value].isAlive then Some(MarkMemo(s.players[i.value].isMarkedForDeath)) else None
  }

  function ProtectRecord(s: State, t: PlayerId): Option<Memo>
  {
    var i := Find(s.players, t);
    if i.Some? then Some(ProtectMemo(s.players[i.value].isProtected)) else None
  }

  function HealRecord(s: State, t: PlayerId): Option<Memo>
  {
    if Find(s.players, t).Some? then Some(HealMemo(s.nightlyHealed)) else None
  }

  function SeeRecord(s: State, t: PlayerId, seer: PlayerId): Option<Memo>
  {
    if SeeApplies(s, t, seer) then Some(SeeMemo(s.lastSeerResult)) else None
  }

  function CoupleRecord(s: State, p1: PlayerId, p2: PlayerId): Option<Memo>
  {
    var i := Find(s.players, p1);
    var j := Find(s.players, p2);
    if i.Some? && j.Some? then
      Some(CoupleMemo(s.players[i.value].lover, s.players[j.value].lover,
                      s.players[i.value].role, s.players[j.value].role))
    else None
  }

  function AliveRecord(s: State, t: PlayerId): Option<Memo>
  {
    var i := Find(s.players, t);
    if i.Some? && s.players[i.value].isAlive then Some(AliveMemo(true)) else None
  }

  /** What `execute` saves for undo, when it takes effect at all. */
  function Recorded(s: State, a: Action): (m: Option<Memo>)
    ensures m.Some? ==> Fits(a, m.value)
  {
    match a
    case Kill(t, _) => MarkRecord(s, t)
    case Protect(t) => ProtectRecord(s, t)
    case Heal(t) => HealRecord(s, t)
    case Poison(t) => MarkRecord(s, t)
    case See(t, seer) => SeeRecord(s, t, seer)
    case Couple(p1, p2) => CoupleRecord(s, p1, p2)
    case Shoot(t, _) => AliveRecord(s, t)
  }

  /** An action that saves nothing has had no effect. */
  lemma NothingRecordedNoEffect(s: State, a: Action)
    requires Recorded(s, a).None?
    ensures Apply(s, a) == s
  {
  }

  // ---- undo, on values ----

  /** KillAction.undo: without a saved state nothing happens. */
  function RevertKill(s: State, t: PlayerId, memo: Option<Memo>): (r: State)
    requires memo.Some? ==> memo.value.MarkMemo?
  {
    var i := Find(s.players, t);
    if memo.None? || i.None? then s
    else WithPlayer(s, i.value, s.players[i.value].(isMarkedForDeath := memo.value.wasMarked))
           .(nightlyKills := Delete(s.nightlyKills, t))
  }

  /** ProtectAction.undo. */
  function RevertProtect(s: State, t: PlayerId, memo: Option<Memo>): (r: State)
    requires memo.Some? ==> memo.value.ProtectMemo?
  {
    var i := Find(s.players, t);
    if memo.None? || i.None? then s
    else WithPlayer(s, i.value, s.players[i.value].(isProtected := memo.value.wasProtected))
  }

  /** HealAction.undo: `previousHealed || null`, even when nothing was saved. */
  function RevertHeal(s: State, memo: Option<Memo>): (r: State)
    requires memo.Some? ==> memo.value.HealMemo?
  {
    s.(nightlyHealed := if memo.Some? then OrNull(memo.value.previousHealed) else None)
  }

  /** PoisonAction.undo. */
  function RevertPoison(s: State, t: PlayerId, memo: Option<Memo>): (r: State)
    requires memo.Some? ==> memo.value.MarkMemo?
  {
    var i := Find(s.players, t);
    if memo.None? || i.None? then s
    else WithPlayer(s, i.value, s.players[i.value].(isMarkedForDeath := memo.value.wasMarked))
           .(nightlyPoisoned := None)
  }

  /** SeeAction.undo: `previousResult || null`. */
  function RevertSee(s: State, memo: Option<Memo>): (r: State)
    requires memo.Some? ==> memo.value.SeeMemo?
  {
    s.(lastSeerResult := if memo.Some? then memo.value.previousResult else None)
  }

  /**
   * CoupleAction.undo: both lovers are put back (an unsaved lover reads as
   * none); a role is put back only when one was saved.
   */
  function RevertCouple(s: State, p1: PlayerId, p2: PlayerId, memo: Option<Memo>): (r: State)
    requires memo.Some? ==> memo.value.CoupleMemo?
  {
    var i := Find(s.players, p1);
    var j := Find(s.players, p2);
    if i.None? || j.None? then s
    else
      var m := if memo.Some? then memo.value else CoupleMemo(None, None, None, None);
      s.(players := UncoupleSeats(s.players, i.value, j.value, m))
  }

  /** The player updates of CoupleAction.undo, in order. */
  function UncoupleSeats(ps: seq<PlayerRec>, i: nat, j: nat, m: Memo): (r: seq<PlayerRec>)
    requires i < |ps| && j < |ps| && m.CoupleMemo?
    ensures |r| == |ps|
    ensures forall k :: 0 <= k < |ps| && k != i && k != j ==> r[k] == ps[k]
    ensures r[j].lover == m.lover2 && (i != j ==> r[i].lover == m.lover1)
    ensures r[j].role == (if m.role2.Some? then m.role2 else if i == j && m.role1.Some? then m.role1 else ps[j].role)
    ensures i != j ==> r[i].role == (if m.role1.Some? then m.role1 else ps[i].role)
    ensures forall k :: 0 <= k < |ps| ==> SameButPairing(r[k], ps[k])
  {
    var ps2 := SetLover(SetLover(ps, i, m.lover1), j, m.lover2);
    var ps3 := if m.role1.Some? then SetRole(ps2, i, m.role1) else ps2;
    if m.role2.Some? then SetRole(ps3, j, m.role2) else ps3
  }

  /** ShootAction.undo. */
  function RevertShoot(s: State, t: PlayerId, memo: Option<Memo>): (r: State)
    requires memo.Some? ==> memo.value.AliveMemo?
  {
    var i := Find(s.players, t);
    if memo.None? || i.None? then s
    else WithPlayer(s, i.value, s.players[i.value].(isAlive := memo.value.wasAlive))
  }

  /** `action.undo(gameState)` with the saved fields `memo` (None: never saved). */
  function Revert(s: State, a: Action, memo: Option<Memo>): State
    requires memo.Some? ==> Fits(a, memo.value)
  {
    match a
    case Kill(t, _) => RevertKill(s, t, memo)
    case Protect(t) => RevertProtect(s, t, memo)
    case Heal(_) => RevertHeal(s, memo)
    case Poison(t) => RevertPoison(s, t, memo)
    case See(_, _) => RevertSee(s, memo)
    case Couple(p1, p2) => RevertCouple(s, p1, p2, memo)
    case Shoot(t, _) => RevertShoot(s, t, memo)
  }

  // ---- undo right after execute ----

  /**
   * Undoing a kill clears the mark it set and deletes the target's entry
   * from the night's kills: the state is back exactly when no earlier kill
   * of the same target was recorded; otherwise that earlier entry is lost.
   */
  lemma KillUndone(s: State, t: PlayerId, k: PlayerId)
    ensures var a := Kill(t, k);
      Revert(Apply(s, a), a, Recorded(s, a)) ==
        if Recorded(s, a).Some? then s.(nightlyKills := Delete(s.nightlyKills, t)) else s
    ensures t !in Keys(s.nightlyKills) ==> var a := Kill(t, k); Revert(Apply(s, a), a, Recorded(s, a)) == s
  {
    var a := Kill(t, k);
    if Recorded(s, a).Some? {
      var i := Find(s.players, t).value;
      var r := Revert(Apply(s, a), a, Recorded(s, a));
      assert r.players == s.players;
      if t !in Keys(s.nightlyKills) {
        DeleteAfterPut(s.nightlyKills, t, k);
      }
      assert Delete(Put(s.nightlyKills, t, k), t) == Delete(s.nightlyKills, t) by {
        DeletePut(s.nightlyKills, t, k);
      }
      if t !in Keys(s.nightlyKills) {
        DeleteAbsent(s.nightlyKills, t);
      }
    }
  }

  /** Putting then deleting a key is deleting it. */
  lemma {:induction false} DeletePut(m: Entries<PlayerId, PlayerId>, t: PlayerId, k: PlayerId)
    ensures Delete(Put(m, t, k), t) == Delete(m, t)
  {
    if |m| > 0 {
      DeletePut(m[1..], t, k);
    }
  }

  /** Undoing a protection gives back the previous protection flag. */
  lemma ProtectUndone(s: State, t: PlayerId)
    ensures var a := Protect(t); Revert(Apply(s, a), a, Recorded(s, a)) == s
  {
    var a := Protect(t);
    if Recorded(s, a).Some? {
      assert Revert(Apply(s, a), a, Recorded(s, a)).players == s.players;
    }
  }

  /**
   * Undoing a heal restores the previous heal (a falsy one reads as
   * none) but leaves the death mark cleared: a kill healed and then
   * un-healed stays unmarked.
   */
  lemma HealUndone(s: State, t: PlayerId)
    ensures var a := Heal(t);
      Revert(Apply(s, a), a, Recorded(s, a)) ==
        Apply(s, a).(nightlyHealed := if Find(s.players, t).Some? then OrNull(s.nightlyHealed) else None)
    ensures Find(s.players, t).Some? && s.players[Find(s.players, t).value].isMarkedForDeath ==>
      var a := Heal(t);
      !Revert(Apply(s, a), a, Recorded(s, a)).players[Find(s.players, t).value].isMarkedForDeath
  {
  }

  /** Undoing a poisoning restores the mark and clears the night's poison. */
  lemma PoisonUndone(s: State, t: PlayerId)
    ensures var a := Poison(t);
      Revert(Apply(s, a), a, Recorded(s, a)) ==
        if Recorded(s, a).Some? then s.(nightlyPoisoned := None) else s
  {
    var a := Poison(t);
    if Recorded(s, a).Some? {
      assert Revert(Apply(s, a), a, Recorded(s, a)).players == s.players;
    }
  }

  /**
   * Undoing a Seer reading restores the previous reading; undoing one that
   * did not take effect erases the current reading.
   */
  lemma SeeUndone(s: State, t: PlayerId, seer: PlayerId)
    ensures var a := See(t, seer);
      Revert(Apply(s, a), a, Recorded(s, a)) ==
        if SeeApplies(s, t, seer) then s else s.(lastSeerResult := None)
  {
  }

  /** Undoing a coupling gives back both lovers and both undecorated roles. */
  lemma CoupleUndone(s: State, p1: PlayerId, p2: PlayerId)
    ensures var a := Couple(p1, p2); Revert(Apply(s, a), a, Recorded(s, a)) == s
  {
    var a := Couple(p1, p2);
    var i := Find(s.players, p1);
    var j := Find(s.players, p2);
    if i.Some? && j.Some? {
      var (i, j) := (i.value, j.value);
      var t := Apply(s, a);
      assert IdsOf(t.players) == IdsOf(s.players);
      assert Find(t.players, p1) == Some(i) && Find(t.players, p2) == Some(j);
      var m := Recorded(s, a).value;
      assert m == CoupleMemo(s.players[i].lover, s.players[j].lover, s.players[i].role, s.players[j].role);
      var u := UncoupleSeats(t.players, i, j, m);
      forall k | 0 <= k < |s.players|
        ensures u[k] == s.players[k]
      {
        assert SameButPairing(u[k], t.players[k]) && SameButPairing(t.players[k], s.players[k]);
        if k == j {
          assert u[k].lover == m.lover2;
          assert u[k].role == s.players[k].role;
        } else if k == i {
          assert u[k].lover == m.lover1;
          assert u[k].role == s.players[k].role;
        } else {
          assert u[k] == t.players[k] == s.players[k];
        }
      }
      assert Revert(t, a, Recorded(s, a)).players == u;
    }
  }

  /** Undoing a shot brings the target back to life. */
  lemma ShootUndone(s: State, t: PlayerId, shooter: PlayerId)
    ensures var a := Shoot(t, shooter); Revert(Apply(s, a), a, Recorded(s, a)) == s
  {
    var a := Shoot(t, shooter);
    if Recorded(s, a).Some? {
      assert Revert(Apply(s, a), a, Recorded(s, a)).players == s.players;
    }
  }

  // ---- identification and serialisation ----

  /** `getType()`. */
  function TypeName(a: Action): string
  {
    match a
    case Kill(_, _) => "KillAction"
    case Protect(_) => "ProtectAction"
    case Heal(_) => "HealAction"
    case Poison(_) => "PoisonAction"
    case See(_, _) => "SeeAction"
    case Couple(_, _) => "CoupleAction"
    case Shoot(_, _) => "ShootAction"
  }

  /** The type tag tells the seven kinds of action apart. */
  lemma TypeNameIdentifiesKind(a: Action, b: Action)
    requires TypeName(a) == TypeName(b)
    ensures a.Kill? == b.Kill? && a.Protect? == b.Protect? && a.Heal? == b.Heal?
    ensures a.Poison? == b.Poison? && a.See? == b.See? && a.Couple? == b.Couple? && a.Shoot? == b.Shoot?
  {
  }

  /** `serialize()` without its timestamp. */
  datatype ActionData = ActionData(actionType: string, payload: map<string, string>)

  function Serialize(a: Action): (d: ActionData)
    ensures d.actionType == TypeName(a)
  {
    match a
    case Kill(t, k) => ActionData(TypeName(a), map["targetId" := t, "killerId" := k])
    case Protect(t) => ActionData(TypeName(a), map["targetId" := t])
    case Heal(t) => ActionData(TypeName(a), map["targetId" := t])
    case Poison(t) => ActionData(TypeName(a), map["targetId" := t])
    case See(t, seer) => ActionData(TypeName(a), map["targetId" := t, "seerId" := seer])
    case Couple(p1, p2) => ActionData(TypeName(a), map["player1Id" := p1, "player2Id" := p2])
    case Shoot(t, sh) => ActionData(TypeName(a), map["targetId" := t, "shooterId" := sh])
  }

  /** Reading an action back from its type tag and payload. */
  function Deserialize(d: ActionData): Option<Action>
  {
    var p := d.payload;
    if d.actionType == "KillAction" && "targetId" in p && "killerId" in p then Some(Kill(p["targetId"], p["killerId"]))
    else if d.actionType == "ProtectAction" && "targetId" in p then Some(Protect(p["targetId"]))
    else if d.actionType == "HealAction" && "targetId" in p then Some(Heal(p["targetId"]))
    else if d.actionType == "PoisonAction" && "targetId" in p then Some(Poison(p["targetId"]))
    else if d.actionType == "SeeAction" && "targetId" in p && "seerId" in p then Some(See(p["targetId"], p["seerId"]))
    else if d.actionType == "CoupleAction" && "player1Id" in p && "player2Id" in p then Some(Couple(p["player1Id"], p["player2Id"]))
    else if d.actionType == "ShootAction" && "targetId" in p && "shooterId" in p then Some(Shoot(p["targetId"], p["shooterId"]))
    else None
  }

  /** The payload carries every constructor argument. */
  lemma SerializeRoundTrip(a: Action)
    ensures Deserialize(Serialize(a)) == Some(a)
  {
  }

  // ---- the command objects ----

  class Command {
    const action: Action
    /** The `previous…` fields; None until `execute` takes effect. */
    var previous: Option<Memo>

    ghost predicate Valid()
      reads this
    {
      previous.Some? ==> Fits(action, previous.value)
    }

    constructor (a: Action)
      ensures action == a && previous == None && Valid()
    {
      action := a;
      previous := None;
    }

    function GetType(): string
    {
      TypeName(action)
    }

    function SerializeAction(): ActionData
    {
      Serialize(action)
    }

    method Execute(gs: GameState)
      requires gs.Valid() && Valid()
      modifies this, gs, gs.players
      ensures gs.Valid() && Valid()
      ensures gs.Abs() == Apply(old(gs.Abs()), action)
      ensures previous == if Recorded(old(gs.Abs()), action).Some? then Recorded(old(gs.Abs()), action) else old(previous)
    {
      match action
      case Kill(t, k) => ExecuteKill(gs, t, k);
      case Protect(t) => ExecuteProtect(gs, t);
      case Heal(t) => ExecuteHeal(gs, t);
      case Poison(t) => ExecutePoison(gs, t);
      case See(t, seer) => ExecuteSee(gs, t, seer);
      case Couple(p1, p2) => ExecuteCouple(gs, p1, p2);
      case Shoot(t, _) => ExecuteShoot(gs, t);
    }

    method ExecuteKill(gs: GameState, t: PlayerId, k: PlayerId)
      requires gs.Valid() && action == Kill(t, k)
      modifies this, gs, gs.players
      ensures gs.Valid() && gs.Abs() == ExecKill(old(gs.Abs()), t, k)
      ensures previous == if MarkRecord(old(gs.Abs()), t).Some? then MarkRecord(old(gs.Abs()), t) else old(previous)
    {
      var target := gs.GetPlayerById(t);
      if target.Some? && target.value.isAlive {
        previous := Some(MarkMemo(target.value.isMarkedForDeath));
        MarkVictim(gs, target.value, Find(old(gs.Abs()).players, t).value, t, k);
      }
    }

    /** The part of `execute` that follows a living target: a protected one is only logged as attacked. */
    method MarkVictim(gs: GameState, q: Player, ghost i: nat, t: PlayerId, k: PlayerId)
      requires gs.Valid() && i < |gs.players| && gs.players[i] == q
      requires Find(gs.Abs().players, t) == Some(i) && q.isAlive
      modifies gs, q
      ensures gs.Valid() && gs.Abs() == ExecKill(old(gs.Abs()), t, k)
    {
      if q.isProtected {
        gs.SetNightlyKills(Put(gs.nightlyKills, t, k));
        return;
      }
      gs.SetMarkOf(q, i, true);
      gs.SetNightlyKills(Put(gs.nightlyKills, t, k));
    }

    method ExecuteProtect(gs: GameState, t: PlayerId)
      requires gs.Valid() && action == Protect(t)
      modifies this, gs.players
      ensures gs.Valid() && gs.Abs() == ExecProtect(old(gs.Abs()), t)
      ensures previous == if ProtectRecord(old(gs.Abs()), t).Some? then ProtectRecord(old(gs.Abs()), t) else old(previous)
    {
      var target := gs.GetPlayerById(t);
      if target.Some? {
        previous := Some(ProtectMemo(target.value.isProtected));
        gs.SetProtectedOf(target.value, Find(old(gs.Abs()).players, t).value, true);
      }
    }

    method ExecuteHeal(gs: GameState, t: PlayerId)
      requires gs.Valid() && action == Heal(t)
      modifies this, gs, gs.players
      ensures gs.Valid() && gs.Abs() == ExecHeal(old(gs.Abs()), t)
      ensures previous == if HealRecord(old(gs.Abs()), t).Some? then HealRecord(old(gs.Abs()), t) else old(previous)
    {
      var target := gs.GetPlayerById(t);
      if target.Some? {
        previous := Some(HealMemo(gs.nightlyHealed));
        gs.SetNightlyHealed(Some(t));
        if target.value.isMarkedForDeath {
          gs.SetMarkOf(target.value, Find(old(gs.Abs()).players, t).value, false);
        }
      }
    }

    method ExecutePoison(gs: GameState, t: PlayerId)
      requires gs.Valid() && action == Poison(t)
      modifies this, gs, gs.players
      ensures gs.Valid() && gs.Abs() == ExecPoison(old(gs.Abs()), t)
      ensures previous == if MarkRecord(old(gs.Abs()), t).Some? then MarkRecord(old(gs.Abs()), t) else old(previous)
    {
      var target := gs.GetPlayerById(t);
      if target.Some? && target.value.isAlive {
        previous := Some(MarkMemo(target.value.isMarkedForDeath));
        gs.SetMarkOf(target.value, Find(old(gs.Abs()).players, t).value, true);
        gs.SetNightlyPoisoned(Some(t));
      }
    }

    method ExecuteSee(gs: GameState, t: PlayerId, seer: PlayerId)
      requires gs.Valid() && action == See(t, seer)
      modifies this, gs
      ensures gs.Valid() && gs.Abs() == ExecSee(old(gs.Abs()), t, seer)
      ensures previous == if SeeRecord(old(gs.Abs()), t, seer).Some? then SeeRecord(old(gs.Abs()), t, seer) else old(previous)
    {
      var target := gs.GetPlayerById(t);
      var seerPlayer := gs.GetPlayerById(seer);
      if target.Some? && seerPlayer.Some? && target.value.role.Some? {
        previous := Some(SeeMemo(gs.lastSeerResult));
        var faction := FactionOf(target.value.role.value);
        gs.lastSeerResult := Some(SeerResult(target.value.id, target.value.name, faction));
      }
    }

    method ExecuteCouple(gs: GameState, p1: PlayerId, p2: PlayerId)
      requires gs.Valid() && action == Couple(p1, p2)
      modifies this, gs.players
      ensures gs.Valid() && gs.Abs() == ExecCouple(old(gs.Abs()), p1, p2)
      ensures previous == if CoupleRecord(old(gs.Abs()), p1, p2).Some? then CoupleRecord(old(gs.Abs()), p1, p2) else old(previous)
    {
      ghost var s0 := gs.Abs();
      var player1 := gs.GetPlayerById(p1);
      var player2 := gs.GetPlayerById(p2);
      if player1.Some? && player2.Some? {
        ghost var (i, j) := (Find(s0.players, p1).value, Find(s0.players, p2).value);
        var (q1, q2) := (player1.value, player2.value);
        previous := Some(CoupleMemo(q1.lover, q2.lover, q1.role, q2.role));
        var (r1, r2) := (q1.role, q2.role);
        assert q1.id == p1 && q2.id == p2;
        gs.SetLoverOf(q1, i, Some(q2.id));
        ghost var ps1 := SetLover(s0.players, i, Some(p2));
        assert gs.Abs().players == ps1;
        gs.SetLoverOf(q2, j, Some(q1.id));
        ghost var ps2 := SetLover(ps1, j, Some(p1));
        assert gs.Abs().players == ps2;
        ghost var differ := false;
        if r1.Some? && r2.Some? && FactionOf(r1.value) != FactionOf(r2.value) {
          differ := true;
          gs.SetRoleOf(q1, i, Some(Decorate(r1.value)));
          gs.SetRoleOf(q2, j, Some(Decorate(r2.value)));
          assert gs.Abs().players == SetRole(SetRole(ps2, i, Some(Decorate(r1.value))), j, Some(Decorate(r2.value)));
        }
        assert gs.Abs().players == CoupleSeats(s0.players, i, j, p1, p2, differ);
      }
    }

    method ExecuteShoot(gs: GameState, t: PlayerId)
      requires gs.Valid() && action.Shoot? && action.targetId == t
      modifies this, gs.players
      ensures gs.Valid() && gs.Abs() == ExecShoot(old(gs.Abs()), t)
      ensures previous == if AliveRecord(old(gs.Abs()), t).Some? then AliveRecord(old(gs.Abs()), t) else old(previous)
    {
      var target := gs.GetPlayerById(t);
      if target.Some? && target.value.isAlive {
        previous := Some(AliveMemo(target.value.isAlive));
        gs.SetAliveOf(target.value, Find(old(gs.Abs()).players, t).value, false);
      }
    }

    method Undo(gs: GameState)
      requires gs.Valid() && Valid()
      modifies gs, gs.players
      ensures gs.Valid()
      ensures gs.Abs() == Revert(old(gs.Abs()), action, previous)
    {
      match action
      case Kill(t, _) => UndoKill(gs, t);
      case Protect(t) => UndoProtect(gs, t);
      case Heal(_) =>
        gs.nightlyHealed := if previous.Some? then OrNull(previous.value.previousHealed) else None;
      case Poison(t) => UndoPoison(gs, t);
      case See(_, _) =>
        gs.lastSeerResult := if previous.Some? then previous.value.previousResult else None;
      case Couple(p1, p2) => UndoCouple(gs, p1, p2);
      case Shoot(t, _) => UndoShoot(gs, t);
    }

    method UndoKill(gs: GameState, t: PlayerId)
      requires gs.Valid() && Valid() && action.Kill? && action.targetId == t
      modifies gs, gs.players
      ensures gs.Valid() && gs.Abs() == RevertKill(old(gs.Abs()), t, previous)
    {
      if previous.None? { return; }
      var target := gs.GetPlayerById(t);
      if target.Some? {
        gs.SetMarkOf(target.value, Find(old(gs.Abs()).players, t).value, previous.value.wasMarked);
        gs.SetNightlyKills(Delete(gs.nightlyKills, t));
      }
    }

    method UndoProtect(gs: GameState, t: PlayerId)
      requires gs.Valid() && Valid() && action == Protect(t)
      modifies gs.players
      ensures gs.Valid() && gs.Abs() == RevertProtect(old(gs.Abs()), t, previous)
    {
      var target := gs.GetPlayerById(t);
      if target.Some? && previous.Some? {
        gs.SetProtectedOf(target.value, Find(old(gs.Abs()).players, t).value, previous.value.wasProtected);
      }
    }

    method UndoPoison(gs: GameState, t: PlayerId)
      requires gs.Valid() && Valid() && action == Poison(t)
      modifies gs, gs.players
      ensures gs.Valid() && gs.Abs() == RevertPoison(old(gs.Abs()), t, previous)
    {
      var target := gs.GetPlayerById(t);
      if target.Some? && previous.Some? {
        gs.SetMarkOf(target.value, Find(old(gs.Abs()).players, t).value, previous.value.wasMarked);
        gs.SetNightlyPoisoned(None);
      }
    }

    method UndoCouple(gs: GameState, p1: PlayerId, p2: PlayerId)
      requires gs.Valid() && Valid() && action == Couple(p1, p2)
      modifies gs.players
      ensures gs.Valid() && gs.Abs() == RevertCouple(old(gs.Abs()), p1, p2, previous)
    {
      ghost var s0 := gs.Abs();
      var player1 := gs.GetPlayerById(p1);
      var player2 := gs.GetPlayerById(p2);
      if player1.Some? && player2.Some? {
        ghost var (i, j) := (Find(s0.players, p1).value, Find(s0.players, p2).value);
        var m := if previous.Some? then previous.value else CoupleMemo(None, None, None, None);
        gs.SetLoverOf(player1.value, i, m.lover1);
        ghost var ps1 := SetLover(s0.players, i, m.lover1);
        assert gs.Abs().players == ps1;
        gs.SetLoverOf(player2.value, j, m.lover2);
        ghost var ps3 := SetLover(ps1, j, m.lover2);
        assert gs.Abs().players == ps3;
        if m.role1.Some? {
          gs.SetRoleOf(player1.value, i, m.role1);
          ps3 := SetRole(ps3, i, m.role1);
          assert gs.Abs().players == ps3;
        }
        if m.role2.Some? {
          gs.SetRoleOf(player2.value, j, m.role2);
          ps3 := SetRole(ps3, j, m.role2);
          assert gs.Abs().players == ps3;
        }
        assert ps3 == UncoupleSeats(s0.players, i, j, m);
      }
    }

    method UndoShoot(gs: GameState, t: PlayerId)
      requires gs.Valid() && Valid() && action.Shoot? && action.targetId == t
      modifies gs.players
      ensures gs.Valid() && gs.Abs() == RevertShoot(old(gs.Abs()), t, previous)
    {
      if previous.None? { return; }
      var target := gs.GetPlayerById(t);
      if target.Some? {
        gs.SetAliveOf(target.value, Find(old(gs.Abs()).players, t).value, previous.value.wasAlive);
      }
    }
  }
}
