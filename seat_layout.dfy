/**
 * The game master's per-player display helpers: the `MM:SS` clock of the
 * discussion timer and the status shown for each player, with its colour.
 */
module PlayerDisplay {
  import opened Basics
  import opened Text
  import opened Players

  /** `padStart(2, '0')`: zeros in front of a string shorter than two characters. */
  function PadStart2(s: string): (r: string)
    ensures |r| == if |s| < 2 then 2 else |s|
    ensures r[|r| - |s|..] == s
    ensures forall i :: 0 <= i < |r| - |s| ==> r[i] == '0'
  {
    if |s| < 2 then seq(2 - |s|, _ => '0') + s else s
  }

  /** Padding with zeros keeps a digit string's value. */
  lemma PadStart2Value(s: string)
    requires AllDigits(s)
    ensures AllDigits(PadStart2(s)) && DecValue(PadStart2(s)) == DecValue(s)
  {
    if |s| == 1 {
      DecValueLeadingZero(s);
      assert PadStart2(s) == "0" + s;
    } else if |s| == 0 {
      assert PadStart2(s) == "00";
      assert "00"[..1] == "0";
    }
  }

  /**
   * `formatTime`: whole minutes, a colon, then the remaining seconds, each
   * zero-padded to two digits (the minutes may run longer).
   */
  function FormatTime(seconds: nat): (t: string)
    ensures |t| >= 5 && t[|t| - 3] == ':'
  {
    DecTwoDigits(seconds % 60);
    PadStart2(Dec(seconds / 60)) + ":" + PadStart2(Dec(seconds % 60))
  }

  /** A number below 100 has at most two decimal digits. */
  lemma DecTwoDigits(n: nat)
    requires n < 100
    ensures |Dec(n)| <= 2
  {
    if n >= 10 {
      assert Dec(n) == Dec(n / 10) + [Digit(n % 10)];
    }
  }

  /** Reads a clock back: digits, a colon and two digits, as minutes and seconds. */
  function ParseTime(t: string): (r: Option<(nat, nat)>)
  {
    if |t| >= 4 && t[|t| - 3] == ':' && AllDigits(t[..|t| - 3]) && AllDigits(t[|t| - 2..])
    then Some((DecValue(t[..|t| - 3]), DecValue(t[|t| - 2..])))
    else None
  }

  /**
   * A formatted clock reads back as `seconds div 60` minutes and
   * `seconds mod 60` seconds, the second part below 60, so it names the
   * same time.
   */
  lemma FormatTimeRoundTrip(seconds: nat)
    ensures ParseTime(FormatTime(seconds)).Some?
    ensures ParseTime(FormatTime(seconds)).value == (seconds / 60, seconds % 60)
    ensures ParseTime(FormatTime(seconds)).value.1 < 60
    ensures ParseTime(FormatTime(seconds)).value.0 * 60 + ParseTime(FormatTime(seconds)).value.1 == seconds
  {
    var m := PadStart2(Dec(seconds / 60));
    var s := PadStart2(Dec(seconds % 60));
    var t := FormatTime(seconds);
    assert t == m + ":" + s;
    DecTwoDigits(seconds % 60);
    assert t[..|t| - 3] == m;
    assert t[|t| - 2..] == s;
    PadStart2Value(Dec(seconds / 60));
    PadStart2Value(Dec(seconds % 60));
    DecRoundTrip(seconds / 60);
    DecRoundTrip(seconds % 60);
  }

  /** What `getPlayerStatus` reports; its Vietnamese labels are not modelled. */
  datatype PlayerStatus = Dead | MarkedForDeath | Protected | Silenced | StillAlive

  /**
   * `getPlayerStatus`: the first that applies of dead, marked for death,
   * protected, silenced; otherwise alive.
   */
  function PlayerStatusOf(p: PlayerRec): (st: PlayerStatus)
    ensures st == Dead <==> !p.isAlive
    ensures st == MarkedForDeath <==> p.isAlive && p.isMarkedForDeath
    ensures st == Protected <==> p.isAlive && !p.isMarkedForDeath && p.isProtected
    ensures st == Silenced <==> p.isAlive && !p.isMarkedForDeath && !p.isProtected && p.isSilenced
  {
    if !p.isAlive then Dead
    else if p.isMarkedForDeath then MarkedForDeath
    else if p.isProtected then Protected
    else if p.isSilenced then Silenced
    else StillAlive
  }

  /** `getPlayerStatusColor`: the CSS text colour of a player's status. */
  function PlayerStatusColor(p: PlayerRec): (c: string)
  {
    if !p.isAlive then "text-red-500"
    else if p.isMarkedForDeath then "text-orange-500"
    else if p.isProtected then "text-blue-500"
    else if p.isSilenced then "text-yellow-500"
    else "text-green-500"
  }

  /** The colour each status is shown in. */
  function StatusColor(st: PlayerStatus): string
  {
    match st
    case Dead => "text-red-500"
    case MarkedForDeath => "text-orange-500"
    case Protected => "text-blue-500"
    case Silenced => "text-yellow-500"
    case StillAlive => "text-green-500"
  }

  /**
   * The colour follows the same priority as the status: it is the status's
   * own colour, and different statuses never share a colour, so the colour
   * alone tells the status.
   */
  lemma StatusColorAgrees(p: PlayerRec, q: PlayerRec)
    ensures PlayerStatusColor(p) == StatusColor(PlayerStatusOf(p))
    ensures PlayerStatusColor(p) == PlayerStatusColor(q) <==> PlayerStatusOf(p) == PlayerStatusOf(q)
  {
  }
}

/**
 * The seating chart: how many rows and columns the chart has for a number
 * of players, and how players are seated clockwise around the border of
 * that rectangle, starting at the top-left, leaving the middle empty. The
 * game-master and setup screens each carry an identical copy of both
 * functions; this module models them once.
 */
module SeatLayout {
  import opened Basics

  datatype GridLayout = GridLayout(rows: int, cols: int)

  /** `Math.ceil(a / b)` for a positive divisor. */
  function CeilDiv(a: int, b: int): (q: int)
    requires b > 0
    ensures (q - 1) * b < a <= q * b
  {
    var q := (a + b - 1) / b;
    assert (q - 1) * b == q * b - b;
    q
  }

  /**
   * `calculateGridLayout`: one row for up to six players, fixed shapes up
   * to eighteen, and five rows of `ceil((n + 4) / 4) + 1` columns beyond.
   */
  function CalculateGridLayout(playerCount: int): (l: GridLayout)
    ensures playerCount <= 6 ==> l == GridLayout(1, playerCount)
    ensures playerCount > 6 ==> l.rows >= 3 && l.cols >= 3
    ensures playerCount > 18 ==> l.rows == 5 && (l.cols - 2) * 4 < playerCount + 4 <= (l.cols - 1) * 4
  {
    if playerCount <= 6 then GridLayout(1, playerCount)
    else if playerCount <= 8 then GridLayout(3, 3)
    else if playerCount <= 10 then GridLayout(3, 4)
    else if playerCount <= 12 then GridLayout(3, 5)
    else if playerCount <= 14 then GridLayout(4, 5)
    else if playerCount <= 16 then GridLayout(4, 6)
    else if playerCount <= 18 then GridLayout(5, 6)
    else GridLayout(5, CeilDiv(playerCount + 4, 4) + 1)
  }

  /** How often a counting loop over `x` steps runs: never when `x` is not positive. */
  function Steps(x: int): nat
  {
    if x < 0 then 0 else x
  }

  /** The number of `placePlayer` calls `arrangePlayersInGrid` makes. */
  function VisitCount(rows: int, cols: int): nat
  {
    if rows == 1 then Steps(cols)
    else Steps(cols) + Steps(rows - 1) + Steps(cols - 1) + Steps(rows - 2)
  }

  /**
   * The (row, column) of the `k`-th `placePlayer` call: the top row left to
   * right, the right column downwards, the bottom row right to left, then
   * the left column upwards.
   */
  function ClockwiseCell(rows: int, cols: int, k: int): (int, int)
  {
    var top, right, bottom := Steps(cols), Steps(rows - 1), Steps(cols - 1);
    if k < top then (0, k)
    else if k < top + right then (k - top + 1, cols - 1)
    else if k < top + right + bottom then (rows - 1, cols - 2 - (k - top - right))
    else (rows - 2 - (k - top - right - bottom), 0)
  }

  /** The flat grid index `r * cols + c` of each `placePlayer` call, in call order. */
  function VisitIndices(rows: int, cols: int): (vs: seq<int>)
    ensures |vs| == VisitCount(rows, cols)
  {
    seq(VisitCount(rows, cols), k => ClockwiseCell(rows, cols, k).0 * cols + ClockwiseCell(rows, cols, k).1)
  }

  /** The grid being filled and the index of the next player to seat. */
  datatype Fill<T> = Fill(grid: seq<Option<T>>, next: nat)

  /**
   * `placePlayer` at flat index `i`: the next player takes the cell when
   * players remain and the cell exists and is still empty. A filled cell
   * is never overwritten and no other cell changes.
   */
  function Place<T>(f: Fill<T>, players: seq<T>, i: int): (g: Fill<T>)
    ensures |g.grid| == |f.grid|
    ensures forall j :: 0 <= j < |f.grid| && j != i ==> g.grid[j] == f.grid[j]
    ensures forall j :: 0 <= j < |f.grid| && f.grid[j].Some? ==> g.grid[j] == f.grid[j]
    ensures g.next == f.next || g.next == f.next + 1
    ensures g.next == f.next + 1 <==> f.next < |players| && 0 <= i < |f.grid| && f.grid[i].None?
    ensures g.next == f.next + 1 ==> g.grid[i] == Some(players[f.next])
  {
    if f.next < |players| && 0 <= i < |f.grid| && f.grid[i].None?
    then Fill(f.grid[i := Some(players[f.next])], f.next + 1)
    else f
  }

  /** `placePlayer` applied at each index of `idxs` in turn. */
  function Run<T>(f: Fill<T>, players: seq<T>, idxs: seq<int>): (g: Fill<T>)
    ensures |g.grid| == |f.grid|
    decreases |idxs|
  {
    if idxs == [] then f
    else Place(Run(f, players, idxs[..|idxs| - 1]), players, idxs[|idxs| - 1])
  }

  lemma RunSnoc<T>(f: Fill<T>, players: seq<T>, idxs: seq<int>, k: nat)
    requires k < |idxs|
    ensures Run(f, players, idxs[..k + 1]) == Place(Run(f, players, idxs[..k]), players, idxs[k])
  {
    assert idxs[..k + 1][..k] == idxs[..k];
  }

  function Empty<T>(size: nat): (grid: seq<Option<T>>)
    ensures |grid| == size
  {
    seq(size, _ => None)
  }

  /** The grid `arrangePlayersInGrid` returns. */
  function Arranged<T>(players: seq<T>, rows: int, cols: int): (grid: seq<Option<T>>)
    requires rows * cols >= 0
    ensures |grid| == rows * cols
  {
    Run(Fill(Empty(rows * cols), 0), players, VisitIndices(rows, cols)).grid
  }

  /**
   * The cells of a grid of `size` cells that a sequence of visits reaches,
   * in the order of their first visit: each once, and exactly those visited
   * that lie inside the grid.
   */
  function FirstVisits(idxs: seq<int>, size: int): (b: seq<int>)
    ensures forall k :: 0 <= k < |b| ==> 0 <= b[k] < size
    ensures forall j :: j in b ==> 0 <= j < size && j in idxs
    ensures forall j :: j in idxs && 0 <= j < size ==> j in b
    ensures forall k, m :: 0 <= k < m < |b| ==> b[k] != b[m]
    ensures |b| <= |idxs|
    decreases |idxs|
  {
    if idxs == [] then []
    else
      var pre := idxs[..|idxs| - 1];
      var v := idxs[|idxs| - 1];
      assert idxs == pre + [v];
      var b := FirstVisits(pre, size);
      if 0 <= v < size && v !in b then b + [v] else b
  }

  /** The cells of the chart's border in clockwise seating order. */
  function Border(rows: int, cols: int): seq<int>
  {
    FirstVisits(VisitIndices(rows, cols), rows * cols)
  }

  /**
   * A grid seated in the order of the first-visited cells `b`: player `k`
   * in the cell `b[k]` while players remain, every other cell empty, and
   * the next player the one after the last seated.
   */
  ghost predicate SeatedInOrder<T>(f: Fill<T>, players: seq<T>, b: seq<int>, size: nat)
  {
    && |f.grid| == size
    && (forall k :: 0 <= k < |b| ==> 0 <= b[k] < size)
    && (f.next == if |players| < |b| then |players| else |b|)
    && (forall k :: 0 <= k < |b| ==> f.grid[b[k]] == if k < |players| then Some(players[k]) else None)
    && (forall j :: 0 <= j < size && j !in b ==> f.grid[j] == None)
  }

  /** One more visit keeps the grid seated in first-visit order. */
  lemma SeatStep<T>(f: Fill<T>, players: seq<T>, b: seq<int>, size: nat, v: int)
    requires SeatedInOrder(f, players, b, size)
    ensures SeatedInOrder(Place(f, players, v), players, if 0 <= v < size && v !in b then b + [v] else b, size)
  {
    if 0 <= v < size && v !in b {
      assert f.grid[v] == None;
      var b1 := b + [v];
      forall k | 0 <= k < |b|
        ensures b1[k] == b[k] && b[k] != v
      {
      }
    } else if 0 <= v < size {
      var k :| 0 <= k < |b| && b[k] == v;
      assert Place(f, players, v) == f;
    }
  }

  /**
   * Filling an empty grid visit by visit seats player `k` in the `k`-th
   * first-visited cell, as long as players remain, and leaves every other
   * cell empty.
   */
  lemma {:induction false} RunSeatsInVisitOrder<T>(players: seq<T>, size: nat, idxs: seq<int>)
    ensures SeatedInOrder(Run(Fill(Empty<T>(size), 0), players, idxs), players, FirstVisits(idxs, size), size)
    decreases |idxs|
  {
    if idxs != [] {
      var pre := idxs[..|idxs| - 1];
      RunSeatsInVisitOrder(players, size, pre);
      SeatStep(Run(Fill(Empty<T>(size), 0), players, pre), players, FirstVisits(pre, size), size, idxs[|idxs| - 1]);
    }
  }

  /**
   * `arrangePlayersInGrid` seats player `k` in the `k`-th border cell while
   * players remain, and every other cell stays empty.
   */
  lemma ArrangedInBorderOrder<T>(players: seq<T>, rows: int, cols: int)
    requires rows * cols >= 0
    ensures var grid, b := Arranged(players, rows, cols), Border(rows, cols);
            && (forall k :: 0 <= k < |b| ==> grid[b[k]] == if k < |players| then Some(players[k]) else None)
            && (forall j :: 0 <= j < |grid| && j !in b ==> grid[j] == None)
  {
    RunSeatsInVisitOrder(players, rows * cols, VisitIndices(rows, cols));
  }

  /** Visits that stay inside the grid and never repeat a cell are their own first visits. */
  lemma {:induction false} FirstVisitsOfDistinct(idxs: seq<int>, size: int)
    requires forall k :: 0 <= k < |idxs| ==> 0 <= idxs[k] < size
    requires forall k, m :: 0 <= k < m < |idxs| ==> idxs[k] != idxs[m]
    ensures FirstVisits(idxs, size) == idxs
    decreases |idxs|
  {
    if idxs != [] {
      var pre := idxs[..|idxs| - 1];
      FirstVisitsOfDistinct(pre, size);
      assert idxs[|idxs| - 1] !in pre;
      assert idxs == pre + [idxs[|idxs| - 1]];
    }
  }

  /** Distinct cells of a grid with `cols` columns have distinct flat indices. */
  lemma IndexInjective(r1: int, c1: int, r2: int, c2: int, cols: int)
    requires 0 <= c1 < cols && 0 <= c2 < cols
    requires r1 * cols + c1 == r2 * cols + c2
    ensures r1 == r2 && c1 == c2
  {
    if r1 < r2 {
      RowsApart(r1, r2, cols);
    } else if r2 < r1 {
      RowsApart(r2, r1, cols);
    }
  }

  /** A later row starts at least a whole row further on. */
  lemma RowsApart(r1: int, r2: int, cols: int)
    requires r1 < r2 && cols >= 0
    ensures r1 * cols + cols <= r2 * cols
  {
    var d := r2 - r1 - 1;
    assert r2 * cols == r1 * cols + cols + d * cols;
    MulNonNeg(d, cols);
  }

  lemma MulNonNeg(x: int, y: int)
    requires x >= 0 && y >= 0
    ensures x * y >= 0
  {
  }

  /** A cell of the grid has a flat index inside the grid. */
  lemma IndexInGrid(r: int, c: int, rows: int, cols: int)
    requires 0 <= r < rows && 0 <= c < cols
    ensures 0 <= r * cols + c < rows * cols
  {
    RowsApart(r, rows, cols);
    MulNonNeg(r, cols);
  }

  /** A shape whose border visits never leave the grid nor repeat a cell. */
  predicate Proper(rows: int, cols: int)
  {
    (rows == 1 && cols >= 0) || (rows >= 2 && cols >= 2)
  }

  lemma VisitInGrid(rows: int, cols: int, k: int)
    requires Proper(rows, cols) && 0 <= k < VisitCount(rows, cols)
    ensures var (r, c) := ClockwiseCell(rows, cols, k); 0 <= r < rows && 0 <= c < cols
    ensures var (r, c) := ClockwiseCell(rows, cols, k); r == 0 || r == rows - 1 || c == 0 || c == cols - 1
  {
  }

  lemma VisitsDistinct(rows: int, cols: int, k: int, m: int)
    requires Proper(rows, cols) && 0 <= k < m < VisitCount(rows, cols)
    ensures ClockwiseCell(rows, cols, k) != ClockwiseCell(rows, cols, m)
  {
  }

  /**
   * For one row, or at least two rows and two columns, every visit reaches
   * a new cell of the grid: the border is the visit order itself, of
   * `cols` cells for one row and `2 * rows + 2 * cols - 4` otherwise.
   */
  lemma BorderIsVisits(rows: int, cols: int)
    requires Proper(rows, cols)
    ensures Border(rows, cols) == VisitIndices(rows, cols)
    ensures |Border(rows, cols)| == if rows == 1 then cols else 2 * rows + 2 * cols - 4
  {
    var vs := VisitIndices(rows, cols);
    forall k | 0 <= k < |vs|
      ensures 0 <= vs[k] < rows * cols
    {
      VisitInGrid(rows, cols, k);
      IndexInGrid(ClockwiseCell(rows, cols, k).0, ClockwiseCell(rows, cols, k).1, rows, cols);
    }
    forall k, m | 0 <= k < m < |vs|
      ensures vs[k] != vs[m]
    {
      VisitInGrid(rows, cols, k);
      VisitInGrid(rows, cols, m);
      VisitsDistinct(rows, cols, k, m);
      var (r1, c1) := ClockwiseCell(rows, cols, k);
      var (r2, c2) := ClockwiseCell(rows, cols, m);
      if vs[k] == vs[m] {
        IndexInjective(r1, c1, r2, c2, cols);
      }
    }
    FirstVisitsOfDistinct(vs, rows * cols);
  }

  /** With a single row, the first players fill the row from the left, in list order. */
  lemma SingleRowInOrder<T>(players: seq<T>, cols: int)
    requires cols >= 0
    ensures forall c :: 0 <= c < cols ==>
      Arranged(players, 1, cols)[c] == if c < |players| then Some(players[c]) else None
  {
    BorderIsVisits(1, cols);
    ArrangedInBorderOrder(players, 1, cols);
    var b := Border(1, cols);
    forall c | 0 <= c < cols
      ensures Arranged(players, 1, cols)[c] == if c < |players| then Some(players[c]) else None
    {
      assert b[c] == c;
    }
  }

  /** With more than one row, no player is seated off the border. */
  lemma InteriorStaysEmpty<T>(players: seq<T>, rows: int, cols: int, r: int, c: int)
    requires 0 < r < rows - 1 && 0 < c < cols - 1
    ensures rows * cols >= 0
    ensures 0 <= r * cols + c < rows * cols && Arranged(players, rows, cols)[r * cols + c] == None
  {
    IndexInGrid(r, c, rows, cols);
    BorderIsVisits(rows, cols);
    ArrangedInBorderOrder(players, rows, cols);
    var b := Border(rows, cols);
    if r * cols + c in b {
      var k :| 0 <= k < |b| && b[k] == r * cols + c;
      VisitInGrid(rows, cols, k);
      IndexInjective(r, c, ClockwiseCell(rows, cols, k).0, ClockwiseCell(rows, cols, k).1, cols);
      assert false;
    }
  }

  /** The number of seats on the border of a chart. */
  function Capacity(l: GridLayout): nat
  {
    |Border(l.rows, l.cols)|
  }

  /**
   * The chart has a border seat for every player exactly when there are at
   * most 22 players; beyond that, the last players are not seated.
   */
  lemma CapacitySuffices(playerCount: int)
    ensures Capacity(CalculateGridLayout(playerCount)) >= playerCount <==> playerCount <= 22
  {
    var l := CalculateGridLayout(playerCount);
    if playerCount >= 0 {
      BorderIsVisits(l.rows, l.cols);
    }
  }

  /**
   * For the counts the setup form offers, and up to 22, every player is
   * seated exactly once: player `k` in the `k`-th border cell, and every
   * filled cell is one of those.
   */
  lemma EverySeatedOnce<T>(players: seq<T>)
    requires |players| <= 22
    ensures var l := CalculateGridLayout(|players|);
            var grid, b := Arranged(players, l.rows, l.cols), Border(l.rows, l.cols);
            && |players| <= |b|
            && (forall k :: 0 <= k < |players| ==> grid[b[k]] == Some(players[k]))
            && (forall j :: 0 <= j < |grid| && grid[j].Some? ==> j in b[..|players|])
  {
    var l := CalculateGridLayout(|players|);
    CapacitySuffices(|players|);
    ArrangedInBorderOrder(players, l.rows, l.cols);
    var grid, b := Arranged(players, l.rows, l.cols), Border(l.rows, l.cols);
    forall j | 0 <= j < |grid| && grid[j].Some?
      ensures j in b[..|players|]
    {
      var k :| 0 <= k < |b| && b[k] == j;
      assert b[..|players|][k] == j;
    }
  }

  /** `placePlayer` on the grid array, at row `r` and column `c`. */
  method PlacePlayer<T>(grid: array<Option<T>>, players: seq<T>, playerIdx: nat, r: int, c: int, cols: int)
    returns (next: nat)
    modifies grid
    ensures Fill(grid[..], next) == Place(Fill(old(grid[..]), playerIdx), players, r * cols + c)
  {
    next := playerIdx;
    var i := r * cols + c;
    if playerIdx < |players| && 0 <= i < grid.Length && grid[i].None? {
      grid[i] := Some(players[playerIdx]);
      next := playerIdx + 1;
    }
  }

  /** The flat index of row `r`, column `c` in a grid `cols` wide. */
  function Flat(r: int, c: int, cols: int): int
  {
    r * cols + c
  }

  /** The visits along the top row: call `k` is at column `k`. */
  ghost predicate TopCells(vs: seq<int>, cols: int)
  {
    Steps(cols) <= |vs| && forall k :: 0 <= k < Steps(cols) ==> vs[k] == k
  }

  /** The visits down the right column from call `start`: row `k - start + 1`. */
  ghost predicate RightCells(vs: seq<int>, start: nat, rows: int, cols: int)
  {
    start + Steps(rows - 1) <= |vs| &&
    forall k :: start <= k < start + Steps(rows - 1) ==> vs[k] == Flat(k - start + 1, cols - 1, cols)
  }

  /** The visits along the bottom row from call `start`, right to left from column `cols - 2`. */
  ghost predicate BottomCells(vs: seq<int>, start: nat, rows: int, cols: int)
  {
    start + Steps(cols - 1) <= |vs| &&
    forall k :: start <= k < start + Steps(cols - 1) ==> vs[k] == Flat(rows - 1, cols - 2 - (k - start), cols)
  }

  /** The visits up the left column from call `start` to the last call. */
  ghost predicate LeftCells(vs: seq<int>, start: nat, rows: int, cols: int)
  {
    start + Steps(rows - 2) == |vs| &&
    forall k :: start <= k < |vs| ==> vs[k] == Flat(rows - 2 - (k - start), 0, cols)
  }

  lemma TopSegment(rows: int, cols: int)
    ensures TopCells(VisitIndices(rows, cols), cols)
  {
  }

  lemma RightSegment(rows: int, cols: int)
    requires rows != 1
    ensures RightCells(VisitIndices(rows, cols), Steps(cols), rows, cols)
  {
  }

  lemma BottomSegment(rows: int, cols: int)
    requires rows != 1
    ensures BottomCells(VisitIndices(rows, cols), Steps(cols) + Steps(rows - 1), rows, cols)
  {
  }

  lemma LeftSegment(rows: int, cols: int)
    requires rows != 1
    ensures LeftCells(VisitIndices(rows, cols), Steps(cols) + Steps(rows - 1) + Steps(cols - 1), rows, cols)
  {
  }

  /** The `k`-th `placePlayer` call of the walk `vs`, at row `r` and column `c`, extends the run by one visit. */
  method Visit<T>(grid: array<Option<T>>, players: seq<T>, playerIdx: nat, cols: int, r: int, c: int,
                  ghost e: Fill<T>, ghost vs: seq<int>, ghost k: nat)
    returns (next: nat)
    requires k < |vs| && vs[k] == Flat(r, c, cols)
    requires Fill(grid[..], playerIdx) == Run(e, players, vs[..k])
    modifies grid
    ensures Fill(grid[..], next) == Run(e, players, vs[..k + 1])
  {
    RunSnoc(e, players, vs, k);
    next := PlacePlayer(grid, players, playerIdx, r, c, cols);
  }

  /** The top row, left to right. */
  method TopRow<T>(grid: array<Option<T>>, players: seq<T>, playerIdx: nat, cols: int,
                   ghost e: Fill<T>, ghost vs: seq<int>)
    returns (next: nat)
    requires TopCells(vs, cols)
    requires Fill(grid[..], playerIdx) == Run(e, players, vs[..0])
    modifies grid
    ensures Fill(grid[..], next) == Run(e, players, vs[..Steps(cols)])
  {
    next := playerIdx;
    var c := 0;
    while c < cols
      invariant 0 <= c <= Steps(cols)
      invariant Fill(grid[..], next) == Run(e, players, vs[..c])
    {
      next := Visit(grid, players, next, cols, 0, c, e, vs, c);
      c := c + 1;
    }
  }

  /** The right column, top to bottom below the top row. */
  method RightColumn<T>(grid: array<Option<T>>, players: seq<T>, playerIdx: nat, rows: int, cols: int,
                        ghost e: Fill<T>, ghost vs: seq<int>, ghost start: nat)
    returns (next: nat)
    requires RightCells(vs, start, rows, cols)
    requires Fill(grid[..], playerIdx) == Run(e, players, vs[..start])
    modifies grid
    ensures Fill(grid[..], next) == Run(e, players, vs[..start + Steps(rows - 1)])
  {
    next := playerIdx;
    var r := 1;
    ghost var k := start;
    while r < rows
      invariant 1 <= r <= Steps(rows - 1) + 1 && k == start + r - 1
      invariant Fill(grid[..], next) == Run(e, players, vs[..k])
    {
      next := Visit(grid, players, next, cols, r, cols - 1, e, vs, k);
      r, k := r + 1, k + 1;
    }
  }

  /** The bottom row, right to left from the second-to-last column. */
  method BottomRow<T>(grid: array<Option<T>>, players: seq<T>, playerIdx: nat, rows: int, cols: int,
                      ghost e: Fill<T>, ghost vs: seq<int>, ghost start: nat)
    returns (next: nat)
    requires BottomCells(vs, start, rows, cols)
    requires Fill(grid[..], playerIdx) == Run(e, players, vs[..start])
    modifies grid
    ensures Fill(grid[..], next) == Run(e, players, vs[..start + Steps(cols - 1)])
  {
    next := playerIdx;
    var c := cols - 2;
    ghost var k := start;
    while c >= 0
      invariant c <= cols - 2 && Steps(c + 1) <= Steps(cols - 1) && k == start + Steps(cols - 1) - Steps(c + 1)
      invariant Fill(grid[..], next) == Run(e, players, vs[..k])
    {
      next := Visit(grid, players, next, cols, rows - 1, c, e, vs, k);
      c, k := c - 1, k + 1;
    }
  }

  /** The left column, bottom to top, stopping below the top row. */
  method LeftColumn<T>(grid: array<Option<T>>, players: seq<T>, playerIdx: nat, rows: int, cols: int,
                       ghost e: Fill<T>, ghost vs: seq<int>, ghost start: nat)
    returns (next: nat)
    requires LeftCells(vs, start, rows, cols)
    requires Fill(grid[..], playerIdx) == Run(e, players, vs[..start])
    modifies grid
    ensures Fill(grid[..], next) == Run(e, players, vs)
  {
    next := playerIdx;
    var r := rows - 2;
    ghost var k := start;
    while r > 0
      invariant r <= rows - 2 && Steps(r) <= Steps(rows - 2) && k == start + Steps(rows - 2) - Steps(r)
      invariant Fill(grid[..], next) == Run(e, players, vs[..k])
    {
      next := Visit(grid, players, next, cols, r, 0, e, vs, k);
      r, k := r - 1, k + 1;
    }
    assert vs[..k] == vs;
  }

  /** The walk `arrangePlayersInGrid` takes: the top row, then for more than one row the rest of the border. */
  ghost predicate ClockwiseWalk(vs: seq<int>, rows: int, cols: int)
  {
    TopCells(vs, cols) &&
    (rows == 1 ==> |vs| == Steps(cols)) &&
    (rows != 1 ==>
      RightCells(vs, Steps(cols), rows, cols) &&
      BottomCells(vs, Steps(cols) + Steps(rows - 1), rows, cols) &&
      LeftCells(vs, Steps(cols) + Steps(rows - 1) + Steps(cols - 1), rows, cols))
  }

  lemma WalkIsClockwise(rows: int, cols: int)
    ensures ClockwiseWalk(VisitIndices(rows, cols), rows, cols)
  {
    TopSegment(rows, cols);
    if rows != 1 {
      RightSegment(rows, cols);
      BottomSegment(rows, cols);
      LeftSegment(rows, cols);
    }
  }

  /** The `placePlayer` calls of `arrangePlayersInGrid`, segment by segment along the walk `vs`. */
  method PlaceAround<T>(grid: array<Option<T>>, players: seq<T>, rows: int, cols: int, ghost e: Fill<T>, ghost vs: seq<int>)
    returns (next: nat)
    requires ClockwiseWalk(vs, rows, cols)
    requires Fill(grid[..], 0) == e
    modifies grid
    ensures Fill(grid[..], next) == Run(e, players, vs)
  {
    assert vs[..0] == [];
    next := TopRow(grid, players, 0, cols, e, vs);
    if rows == 1 {
      assert vs[..Steps(cols)] == vs;
    } else {
      next := RightColumn(grid, players, next, rows, cols, e, vs, Steps(cols));
      next := BottomRow(grid, players, next, rows, cols, e, vs, Steps(cols) + Steps(rows - 1));
      next := LeftColumn(grid, players, next, rows, cols, e, vs, Steps(cols) + Steps(rows - 1) + Steps(cols - 1));
    }
  }

  /**
   * `arrangePlayersInGrid`: a `rows * cols` grid of empty cells, filled by
   * `placePlayer` along the top row only for a single row, and clockwise
   * around the border otherwise.
   */
  method ArrangePlayersInGrid<T>(players: seq<T>, rows: int, cols: int) returns (grid: array<Option<T>>)
    requires rows * cols >= 0
    ensures fresh(grid)
    ensures grid[..] == Arranged(players, rows, cols)
  {
    grid := new Option<T>[rows * cols](_ => None);
    ghost var e := Fill(Empty<T>(rows * cols), 0);
    assert grid[..] == e.grid;
    WalkIsClockwise(rows, cols);
    var placed := PlaceAround(grid, players, rows, cols, e, VisitIndices(rows, cols));
  }
}
