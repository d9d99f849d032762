/**
 * A seat at the table: its fixed id, display name, role, the four status
 * flags, and the lover Cupid paired it with. Players are objects whose
 * fields the engine and the actions update in place; `Rec()` is the value
 * the object holds at one moment.
 */
module Players {
  import opened Basics
  import opened Roles

  datatype PlayerRec = PlayerRec(
    id: PlayerId,
    name: string,
    role: Option<Role>,
    isAlive: bool,
    isMarkedForDeath: bool,
    isProtected: bool,
    isSilenced: bool,
    lover: Option<PlayerId>)

  class Player {
    const id: PlayerId
    var name: string
    var role: Option<Role>
    var isAlive: bool
    var isMarkedForDeath: bool
    var isProtected: bool
    var isSilenced: bool
    /** The lover, by id (the source keeps a reference to the lover's object). */
    var lover: Option<PlayerId>

    /** A new player is alive, unmarked, unprotected, not silenced, role-less and single. */
    constructor (id: PlayerId, name: string)
      ensures Rec() == PlayerRec(id, name, None, true, false, false, false, None)
    {
      this.id := id;
      this.name := name;
      this.role := None;
      this.isAlive := true;
      this.isMarkedForDeath := false;
      this.isProtected := false;
      this.isSilenced := false;
      this.lover := None;
    }

    function Rec(): PlayerRec
      reads this
    {
      PlayerRec(id, name, role, isAlive, isMarkedForDeath, isProtected, isSilenced, lover)
    }
  }

  /** The values a list of player objects holds, in list order. */
  function Recs(ps: seq<Player>): (r: seq<PlayerRec>)
    reads ps
    ensures |r| == |ps|
  {
    seq(|ps|, i requires 0 <= i < |ps| reads ps => ps[i].Rec())
  }

  lemma RecsCons(p: Player, ps: seq<Player>)
    ensures Recs([p] + ps) == [p.Rec()] + Recs(ps)
  {
  }

  /** No player object appears twice in the list. */
  ghost predicate Distinct(ps: seq<Player>)
  {
    forall i, j :: 0 <= i < j < |ps| ==> ps[i] != ps[j]
  }

  /** The ids of a list of player objects (ids never change). */
  function PlayerIds(ps: seq<Player>): (ids: seq<PlayerId>)
    ensures |ids| == |ps|
  {
    seq(|ps|, i requires 0 <= i < |ps| => ps[i].id)
  }

  function IdsOf(ps: seq<PlayerRec>): (ids: seq<PlayerId>)
    ensures |ids| == |ps|
  {
    seq(|ps|, i requires 0 <= i < |ps| => ps[i].id)
  }

  lemma IdsOfRecs(ps: seq<Player>)
    ensures IdsOf(Recs(ps)) == PlayerIds(ps)
  {
  }

  /**
   * The index `Array.find` stops at: the first element equal to `id`, or
   * None when there is none.
   */
  function FirstIndex(ids: seq<PlayerId>, id: PlayerId): (r: Option<nat>)
    ensures r.Some? ==> r.value < |ids| && ids[r.value] == id
    ensures r.Some? ==> forall j :: 0 <= j < r.value ==> ids[j] != id
    ensures r.None? <==> id !in ids
  {
    if |ids| == 0 then None
    else if ids[0] == id then Some(0)
    else
      var rest := FirstIndex(ids[1..], id);
      if rest.Some? then Some(rest.value + 1) else None
  }

  /** `players.find(p => p.id === id)`, as an index into the list of values. */
  function Find(ps: seq<PlayerRec>, id: PlayerId): (r: Option<nat>)
    ensures r.Some? ==> r.value < |ps| && ps[r.value].id == id
    ensures r.Some? ==> forall j :: 0 <= j < r.value ==> ps[j].id != id
    ensures r.None? <==> forall j :: 0 <= j < |ps| ==> ps[j].id != id
  {
    var ids := IdsOf(ps);
    assert forall j :: 0 <= j < |ps| ==> ids[j] == ps[j].id;
    FirstIndex(ids, id)
  }

  /** Every id is held by exactly one player. */
  predicate UniqueIds(ps: seq<PlayerRec>)
  {
    forall i, j :: 0 <= i < j < |ps| ==> ps[i].id != ps[j].id
  }

  /** With unique ids, every player is found by its own id. */
  lemma FindOwnId(ps: seq<PlayerRec>, k: nat)
    requires UniqueIds(ps) && k < |ps|
    ensures Find(ps, ps[k].id) == Some(k)
  {
  }

  /** `p.role?.name`. */
  function RoleNameOf(p: PlayerRec): Option<string>
  {
    if p.role.Some? then Some(Name(p.role.value)) else None
  }

  /** `players.filter(p => p.isAlive)`. */
  function Living(ps: seq<PlayerRec>): (r: seq<PlayerRec>)
    ensures |r| <= |ps|
    ensures forall i :: 0 <= i < |r| ==> r[i] in ps && r[i].isAlive
    ensures forall i :: 0 <= i < |ps| && ps[i].isAlive ==> ps[i] in r
  {
    if |ps| == 0 then []
    else if ps[0].isAlive then [ps[0]] + Living(ps[1..])
    else Living(ps[1..])
  }

  /**
   * The filter keeps the players in list order, each as often as it occurs:
   * a single player is kept exactly when alive, and the filter of a
   * concatenation is the concatenation of the filters.
   */
  lemma {:induction false} LivingAppend(a: seq<PlayerRec>, b: seq<PlayerRec>)
    ensures Living(a + b) == Living(a) + Living(b)
    ensures |a| == 1 ==> Living(a) == (if a[0].isAlive then a else [])
  {
    if |a| == 0 {
      assert a + b == b;
    } else {
      assert (a + b)[0] == a[0] && (a + b)[1..] == a[1..] + b;
      LivingAppend(a[1..], b);
      if |a| == 1 {
        assert a[1..] == [];
      }
    }
  }

  /** The same filter over the player objects, as `getLivingPlayers` returns them. */
  function LivingPlayers(ps: seq<Player>): (r: seq<Player>)
    reads ps
    ensures forall i :: 0 <= i < |r| ==> r[i] in ps && r[i].isAlive
    ensures Recs(r) == Living(Recs(ps))
  {
    if |ps| == 0 then []
    else
      var rest := LivingPlayers(ps[1..]);
      assert Recs(ps[1..]) == Recs(ps)[1..];
      RecsCons(ps[0], rest);
      if ps[0].isAlive then [ps[0]] + rest else rest
  }
}
