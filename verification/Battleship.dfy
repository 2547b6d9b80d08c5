/** The Battleship board (battleship::Board in src/apps/ui_battleship.hpp): the grid and the fleet records agree over
    every run. */
module Battleship {

  const GRID: int := 10
  const CELLS: nat := 100
  const SHIPS: nat := 5

  datatype Cell = Empty | ShipCell | Miss | Hit | Sunk

  datatype Ship = Ship(size: nat, x: int, y: int, horizontal: bool, hits: nat, placed: bool) {
    predicate IsSunk() { placed && hits >= size }
  }

  datatype Shot = InvalidShot | MissShot | HitShot | SunkShot

  function Size(i: nat): (n: nat)
    ensures 2 <= n <= 5
  {
    if i == 0 then 5 else if i == 1 then 4 else if i == 2 || i == 3 then 3 else 2
  }

  /** The board as a value: cell (x, y) is number 10 * y + x. */
  datatype State = State(grid: seq<Cell>, ships: seq<Ship>, placed: nat)

  predicate InBounds(x: int, y: int) { 0 <= x < GRID && 0 <= y < GRID }

  function Number(x: int, y: int): int { GRID * y + x }

  // ----- the cells of a ship

  /** The ship lies wholly on the board. */
  predicate OnBoard(s: Ship) {
    s.size >= 1 && InBounds(s.x, s.y) && (if s.horizontal then s.x + s.size <= GRID else s.y + s.size <= GRID)
  }

  function CellX(s: Ship, j: nat): int { if s.horizontal then s.x + j else s.x }

  function CellY(s: Ship, j: nat): int { if s.horizontal then s.y else s.y + j }

  function CellOf(s: Ship, j: nat): int { Number(CellX(s, j), CellY(s, j)) }

  /** The ship occupies cell `k`. */
  predicate Owns(s: Ship, k: nat) {
    if s.horizontal then k / 10 == s.y && s.x <= k % 10 < s.x + s.size
    else k % 10 == s.x && s.y <= k / 10 < s.y + s.size
  }

  function Offset(s: Ship, k: nat): int { if s.horizontal then k % 10 - s.x else k / 10 - s.y }

  lemma CellIsOwned(s: Ship, j: nat)
    requires OnBoard(s) && j < s.size
    ensures 0 <= CellOf(s, j) < CELLS && Owns(s, CellOf(s, j)) && Offset(s, CellOf(s, j)) == j
    ensures InBounds(CellX(s, j), CellY(s, j))
  {
    NumberParts(CellX(s, j), CellY(s, j));
  }

  lemma NumberParts(x: int, y: int)
    requires InBounds(x, y)
    ensures 0 <= Number(x, y) < CELLS && Number(x, y) / 10 == y && Number(x, y) % 10 == x
  {
  }

  lemma OwnedIsCell(s: Ship, k: nat)
    requires OnBoard(s) && k < CELLS && Owns(s, k)
    ensures 0 <= Offset(s, k) < s.size && CellOf(s, Offset(s, k)) == k
  {
  }

  /** The same cell, or a neighbour of it, also diagonally. */
  predicate Near(k: nat, l: nat) {
    -1 <= k % 10 - l % 10 <= 1 && -1 <= k / 10 - l / 10 <= 1
  }

  predicate Disjoint(a: Ship, b: Ship) { forall k :: 0 <= k < CELLS && Owns(a, k) ==> !Owns(b, k) }

  /** Not even diagonal contact. */
  predicate Apart(a: Ship, b: Ship) {
    forall k, l :: 0 <= k < CELLS && 0 <= l < CELLS && Owns(a, k) && Owns(b, l) ==> !Near(k, l)
  }

  // ----- what every run keeps

  predicate PartOfShip(c: Cell) { c == ShipCell || c == Hit || c == Sunk }

  /** How many of a ship's first `n` cells have been struck. */
  function Struck(grid: seq<Cell>, s: Ship, n: nat): nat
    requires |grid| == CELLS && OnBoard(s) && n <= s.size
    decreases n
  {
    if n == 0 then 0
    else
      CellIsOwned(s, n - 1);
      Struck(grid, s, n - 1) + if grid[CellOf(s, n - 1)] == ShipCell then 0 else 1
  }

  /** A placed ship's record agrees with the grid: it counts its struck cells, and it is sunk exactly when
      all its cells show it. */
  predicate Agrees(grid: seq<Cell>, s: Ship)
    requires |grid| == CELLS
  {
    && OnBoard(s) && s.placed && s.hits == Struck(grid, s, s.size)
    && (forall k :: 0 <= k < CELLS && Owns(s, k) ==>
          if s.IsSunk() then grid[k] == Sunk else grid[k] == ShipCell || grid[k] == Hit)
  }

  /** Somebody's cell. */
  predicate Owned(b: State, k: nat) { exists i :: 0 <= i < b.placed <= |b.ships| && Owns(b.ships[i], k) }

  predicate Shape(b: State) {
    && |b.grid| == CELLS && |b.ships| == SHIPS && b.placed <= SHIPS
    && (forall i :: 0 <= i < SHIPS ==> b.ships[i].size == Size(i))
    && (forall i :: b.placed <= i < SHIPS ==> !b.ships[i].placed)
  }

  /** `fired`: a shot has been taken; `late`: a ship has been placed after one. */
  predicate Inv(b: State, fired: bool, late: bool) {
    && Shape(b)
    && (forall i :: 0 <= i < b.placed ==> Agrees(b.grid, b.ships[i]))
    && (forall i, j :: 0 <= i < j < b.placed ==> Disjoint(b.ships[i], b.ships[j]))
    && (!late ==> forall i, j :: 0 <= i < j < b.placed ==> Apart(b.ships[i], b.ships[j]))
    && (forall k :: 0 <= k < CELLS ==> (PartOfShip(b.grid[k]) <==> Owned(b, k)))
    && (!fired ==> !late && forall k :: 0 <= k < CELLS ==> b.grid[k] == Empty || b.grid[k] == ShipCell)
  }

  // ----- placing

  /** The new ship would lie on empty cells with no ship cell near. */
  predicate CanPlace(grid: seq<Cell>, s: Ship)
    requires |grid| == CELLS
  {
    && OnBoard(s)
    && forall k :: 0 <= k < CELLS && Owns(s, k) ==>
         grid[k] == Empty && forall l :: 0 <= l < CELLS && Near(k, l) ==> grid[l] != ShipCell
  }

  /** The ship's first `n` cells set to `c`. */
  function Painted(grid: seq<Cell>, s: Ship, n: nat, c: Cell): (r: seq<Cell>)
    requires |grid| == CELLS && OnBoard(s) && n <= s.size
    ensures |r| == CELLS
    decreases n
  {
    if n == 0 then grid
    else
      CellIsOwned(s, n - 1);
      Painted(grid, s, n - 1, c)[CellOf(s, n - 1) := c]
  }

  lemma {:induction false} PaintedAt(grid: seq<Cell>, s: Ship, n: nat, c: Cell, k: nat)
    requires |grid| == CELLS && OnBoard(s) && n <= s.size && k < CELLS
    ensures Painted(grid, s, n, c)[k] == if Owns(s, k) && Offset(s, k) < n then c else grid[k]
    decreases n
  {
    hide Owns, Offset, CellOf, OnBoard;
    if n > 0 {
      CellIsOwned(s, n - 1);
      PaintedAt(grid, s, n - 1, c, k);
      if Owns(s, k) {
        OwnedIsCell(s, k);
      }
    } else if Owns(s, k) {
      OwnedIsCell(s, k);
    }
  }

  function Candidate(b: State, x: int, y: int, horizontal: bool): Ship
    requires b.placed < SHIPS
  {
    Ship(Size(b.placed), x, y, horizontal, 0, true)
  }

  function Placed(b: State, x: int, y: int, horizontal: bool): State
    requires Shape(b) && b.placed < SHIPS && CanPlace(b.grid, Candidate(b, x, y, horizontal))
  {
    var s := Candidate(b, x, y, horizontal);
    State(Painted(b.grid, s, s.size, ShipCell), b.ships[b.placed := s], b.placed + 1)
  }

  /** place_next. */
  function PlaceNext(b: State, x: int, y: int, horizontal: bool): (bool, State)
    requires Shape(b)
  {
    if b.placed < SHIPS && CanPlace(b.grid, Candidate(b, x, y, horizontal)) then (true, Placed(b, x, y, horizontal))
    else (false, b)
  }

  /** Painting a whole ship changes its cells and no other. */
  lemma WholePainted(grid: seq<Cell>, s: Ship, c: Cell, k: nat)
    requires |grid| == CELLS && OnBoard(s) && k < CELLS
    ensures Painted(grid, s, s.size, c)[k] == if Owns(s, k) then c else grid[k]
  {
    hide Owns, Offset, OnBoard;
    PaintedAt(grid, s, s.size, c, k);
    if Owns(s, k) {
      OwnedIsCell(s, k);
    }
  }

  /** Cells that are not the ship's do not matter to its count. */
  lemma {:induction false} StruckSame(g: seq<Cell>, h: seq<Cell>, s: Ship, n: nat)
    requires |g| == CELLS && |h| == CELLS && OnBoard(s) && n <= s.size
    requires forall k :: 0 <= k < CELLS && Owns(s, k) ==> (g[k] == ShipCell <==> h[k] == ShipCell)
    ensures Struck(g, s, n) == Struck(h, s, n)
    decreases n
  {
    hide Owns, OnBoard, CellOf;
    if n > 0 {
      CellIsOwned(s, n - 1);
      StruckSame(g, h, s, n - 1);
    }
  }

  lemma AgreesSame(g: seq<Cell>, h: seq<Cell>, s: Ship)
    requires |g| == CELLS && |h| == CELLS && Agrees(g, s) && forall k :: 0 <= k < CELLS && Owns(s, k) ==> g[k] == h[k]
    ensures Agrees(h, s)
  {
    hide Owns, OnBoard;
    StruckSame(g, h, s, s.size);
  }

  lemma {:induction false} NothingStruck(g: seq<Cell>, s: Ship, n: nat)
    requires |g| == CELLS && OnBoard(s) && n <= s.size && forall k :: 0 <= k < CELLS && Owns(s, k) ==> g[k] == ShipCell
    ensures Struck(g, s, n) == 0
    decreases n
  {
    hide Owns, OnBoard, CellOf;
    if n > 0 {
      CellIsOwned(s, n - 1);
      NothingStruck(g, s, n - 1);
    }
  }

  lemma CandidateIsFree(b: State, fired: bool, late: bool, s: Ship, i: nat)
    requires Inv(b, fired, late) && CanPlace(b.grid, s) && i < b.placed
    ensures Disjoint(b.ships[i], s)
    ensures !fired ==> Apart(b.ships[i], s)
  {
    hide Owns, Agrees, Shape, OnBoard, Near;
    ShapeOf(b);
    var a := b.ships[i];
    forall k | 0 <= k < CELLS && Owns(a, k)
      ensures !Owns(s, k)
    {
      assert Owned(b, k);
    }
    if !fired {
      forall k, l | 0 <= k < CELLS && 0 <= l < CELLS && Owns(a, k) && Owns(s, l)
        ensures !Near(k, l)
      {
        assert Owned(b, k);
        NearBothWays(k, l);
      }
    }
  }

  lemma NearBothWays(k: nat, l: nat)
    ensures Near(k, l) == Near(l, k)
  {
  }

  lemma ShapeOf(b: State)
    requires Shape(b)
    ensures |b.grid| == CELLS && |b.ships| == SHIPS && b.placed <= SHIPS
  {
  }

  /** A new ship's record agrees with the grid. */
  lemma NewShipAgrees(grid: seq<Cell>, s: Ship)
    requires |grid| == CELLS && OnBoard(s) && s.placed && s.hits == 0
    requires forall k :: 0 <= k < CELLS && Owns(s, k) ==> grid[k] == ShipCell
    ensures Agrees(grid, s)
  {
    hide Owns;
    NothingStruck(grid, s, s.size);
    OnBoardSize(s);
  }

  lemma OnBoardSize(s: Ship)
    requires OnBoard(s)
    ensures s.size >= 1
  {
  }

  lemma OwnedAfterPlacing(b: State, c: State, s: Ship, k: nat)
    requires Shape(b) && Shape(c) && b.placed < SHIPS && c.placed == b.placed + 1 && c.ships == b.ships[b.placed := s]
    ensures Owned(c, k) <==> Owned(b, k) || Owns(s, k)
  {
    hide Owns;
    if Owned(b, k) {
      var i :| 0 <= i < b.placed && Owns(b.ships[i], k);
      assert c.ships[i] == b.ships[i];
    }
    if Owned(c, k) {
      var i :| 0 <= i < c.placed && Owns(c.ships[i], k);
      assert i < b.placed ==> c.ships[i] == b.ships[i];
    }
    if Owns(s, k) {
      assert Owns(c.ships[b.placed], k);
    }
  }

  /** Placing keeps the agreement; only a ship placed after a shot may touch another one. */
  lemma PlacingKeepsInv(b: State, fired: bool, late: bool, x: int, y: int, horizontal: bool)
    requires Inv(b, fired, late)
    ensures var (ok, c) := PlaceNext(b, x, y, horizontal); Inv(c, fired, late || (ok && fired))
  {
    hide Owns, Agrees, Disjoint, Apart, Owned, CanPlace, Painted;
    ShapeOf(b);
    var (ok, c) := PlaceNext(b, x, y, horizontal);
    if ok {
      var s := Candidate(b, x, y, horizontal);
      CanPlaceMeans(b.grid, s);
      forall k | 0 <= k < CELLS
        ensures c.grid[k] == if Owns(s, k) then ShipCell else b.grid[k]
        ensures Owned(c, k) <==> Owned(b, k) || Owns(s, k)
      {
        WholePainted(b.grid, s, ShipCell, k);
        OwnedAfterPlacing(b, c, s, k);
      }
      NewShipAgrees(c.grid, s);
      forall i | 0 <= i < b.placed
        ensures Agrees(c.grid, c.ships[i]) && Disjoint(c.ships[i], s) && (!fired ==> Apart(c.ships[i], s))
      {
        CandidateIsFree(b, fired, late, s, i);
        UntouchedAgrees(b.grid, c.grid, b.ships[i], s);
      }
    }
  }

  lemma CanPlaceMeans(grid: seq<Cell>, s: Ship)
    requires |grid| == CELLS && CanPlace(grid, s)
    ensures OnBoard(s) && forall k :: 0 <= k < CELLS && Owns(s, k) ==> grid[k] == Empty
  {
  }

  lemma UntouchedAgrees(g: seq<Cell>, h: seq<Cell>, a: Ship, s: Ship)
    requires |g| == CELLS && |h| == CELLS && Agrees(g, a) && Disjoint(a, s)
    requires forall k :: 0 <= k < CELLS && !Owns(s, k) ==> h[k] == g[k]
    ensures Agrees(h, a)
  {
    hide Owns, Agrees;
    AgreesSame(g, h, a);
  }

  // ----- shots

  /** ship_index_at: the first placed ship on a cell, or -1. */
  function ShipIndexFrom(ships: seq<Ship>, k: nat, i: nat): (r: int)
    requires i <= |ships|
    ensures -1 <= r < |ships| && (r >= 0 ==> r >= i && ships[r].placed && Owns(ships[r], k))
    ensures r < 0 ==> forall j :: i <= j < |ships| && ships[j].placed ==> !Owns(ships[j], k)
    decreases |ships| - i
  {
    if i == |ships| then -1
    else if ships[i].placed && Owns(ships[i], k) then i
    else ShipIndexFrom(ships, k, i + 1)
  }

  function ShipIndex(b: State, k: nat): (r: int)
    ensures -1 <= r < |b.ships| && (r >= 0 ==> b.ships[r].placed && Owns(b.ships[r], k))
  {
    ShipIndexFrom(b.ships, k, 0)
  }

  /** A shot at a cell that shows a ship. */
  function StrikeShip(b: State, k: nat, i: nat): (Shot, State)
    requires |b.grid| == CELLS && k < CELLS && i < |b.ships| && OnBoard(b.ships[i])
  {
    var s := b.ships[i].(hits := b.ships[i].hits + 1);
    var g := b.grid[k := Hit];
    if !s.IsSunk() then (HitShot, State(g, b.ships[i := s], b.placed))
    else (SunkShot, State(Painted(g, s, s.size, Sunk), b.ships[i := s], b.placed))
  }

  /** receive_shot. A ship cell without a ship, which the source also provides for, cannot be met. */
  function ReceiveShot(b: State, x: int, y: int): (Shot, State)
    requires |b.grid| == CELLS
    requires InBounds(x, y) && b.grid[Number(x, y)] == ShipCell ==>
               ShipIndex(b, Number(x, y)) >= 0 && OnBoard(b.ships[ShipIndex(b, Number(x, y))])
  {
    if !InBounds(x, y) then (InvalidShot, b)
    else
      var k := Number(x, y);
      if b.grid[k] == Hit || b.grid[k] == Miss || b.grid[k] == Sunk then (InvalidShot, b)
      else if b.grid[k] != ShipCell then (MissShot, b.(grid := b.grid[k := Miss]))
      else StrikeShip(b, k, ShipIndex(b, k))
  }

  /** The branch for a ship cell without a ship is unreachable. */
  lemma ShipCellHasShip(b: State, fired: bool, late: bool, k: nat)
    requires Inv(b, fired, late) && k < CELLS && b.grid[k] == ShipCell
    ensures 0 <= ShipIndex(b, k) < b.placed && Agrees(b.grid, b.ships[ShipIndex(b, k)])
  {
    hide Owns, OnBoard;
    assert Owned(b, k);
    var i :| 0 <= i < b.placed && Owns(b.ships[i], k);
    assert b.ships[i].placed;
  }

  lemma {:induction false} OneMoreStruck(g: seq<Cell>, s: Ship, j: nat, c: Cell, n: nat)
    requires |g| == CELLS && OnBoard(s) && j < s.size && n <= s.size && c != ShipCell
    requires 0 <= CellOf(s, j) < CELLS && g[CellOf(s, j)] == ShipCell
    ensures Struck(g[CellOf(s, j) := c], s, n) == Struck(g, s, n) + if j < n then 1 else 0
    decreases n
  {
    hide Owns, OnBoard, Offset, CellOf;
    if n > 0 {
      CellIsOwned(s, n - 1);
      CellIsOwned(s, j);
      OneMoreStruck(g, s, j, c, n - 1);
    }
  }

  /** All cells struck means none shows a ship any more, and the other way round. */
  lemma {:induction false} AllStruck(g: seq<Cell>, s: Ship, n: nat)
    requires |g| == CELLS && OnBoard(s) && n <= s.size
    ensures Struck(g, s, n) <= n
    ensures Struck(g, s, n) == n <==> forall j :: 0 <= j < n ==> 0 <= CellOf(s, j) < CELLS && g[CellOf(s, j)] != ShipCell
    decreases n
  {
    hide Owns, OnBoard, CellOf;
    if n > 0 {
      CellIsOwned(s, n - 1);
      AllStruck(g, s, n - 1);
    }
  }

  function Blank(): (r: seq<Cell>)
    ensures |r| == CELLS && forall k :: 0 <= k < CELLS ==> r[k] == Empty
  {
    seq(CELLS, _ => Empty)
  }

  /** A count does not look at the count. */
  lemma {:induction false} SameGeometry(g: seq<Cell>, s: Ship, t: Ship, n: nat)
    requires |g| == CELLS && OnBoard(s) && n <= s.size && t == s.(hits := t.hits)
    ensures OnBoard(t) && Struck(g, t, n) == Struck(g, s, n)
    ensures forall k :: 0 <= k < CELLS ==> Owns(t, k) == Owns(s, k)
    decreases n
  {
    if n > 0 {
      SameGeometry(g, s, t, n - 1);
    }
  }

  /** The ship that was hit agrees with the grid again. */
  lemma StruckShipAgrees(g: seq<Cell>, s: Ship, k: nat)
    requires |g| == CELLS && k < CELLS && Agrees(g, s) && Owns(s, k) && g[k] == ShipCell
    ensures var t := s.(hits := s.hits + 1); var h := g[k := Hit];
            OnBoard(t) && Agrees(if t.IsSunk() then Painted(h, t, t.size, Sunk) else h, t)
  {
    var t := s.(hits := s.hits + 1);
    var h := g[k := Hit];
    SameGeometry(h, s, t, s.size);
    OwnedIsCell(s, k);
    OneMoreStruck(g, s, Offset(s, k), Hit, s.size);
    AllStruck(h, s, s.size);
    hide Owns, OnBoard, Offset, CellOf;
    if t.IsSunk() {
      SinkingAgrees(h, t);
    }
  }

  lemma SinkingAgrees(h: seq<Cell>, t: Ship)
    requires |h| == CELLS && OnBoard(t) && t.placed && t.hits == t.size
    ensures Agrees(Painted(h, t, t.size, Sunk), t)
  {
    hide Owns, OnBoard;
    var p := Painted(h, t, t.size, Sunk);
    forall k | 0 <= k < CELLS
      ensures p[k] == if Owns(t, k) then Sunk else h[k]
    {
      WholePainted(h, t, Sunk, k);
    }
    forall j | 0 <= j < t.size
      ensures 0 <= CellOf(t, j) < CELLS && p[CellOf(t, j)] != ShipCell
    {
      CellIsOwned(t, j);
    }
    AllStruck(p, t, t.size);
  }

  /** What a hit does to the grid: the ship's cells stay a ship's, the others stay as they are. */
  lemma HitCells(g: seq<Cell>, s: Ship, k: nat, l: nat)
    requires |g| == CELLS && k < CELLS && l < CELLS && OnBoard(s) && Owns(s, k) && PartOfShip(g[k])
    ensures var t := s.(hits := s.hits + 1);
            OnBoard(t) &&
            var h := if t.IsSunk() then Painted(g[k := Hit], t, t.size, Sunk) else g[k := Hit];
            (Owns(s, l) ==> (PartOfShip(g[l]) ==> PartOfShip(h[l]))) && (!Owns(s, l) ==> h[l] == g[l])
  {
    var t := s.(hits := s.hits + 1);
    SameGeometry(g, s, t, 0);
    WholePainted(g[k := Hit], t, Sunk, l);
  }

  lemma OwnedSame(b: State, c: State, i: nat, k: nat)
    requires |b.ships| == |c.ships| == SHIPS && i < b.placed == c.placed <= SHIPS && k < CELLS && OnBoard(b.ships[i])
    requires c.ships == b.ships[i := b.ships[i].(hits := b.ships[i].hits + 1)]
    ensures Owned(c, k) <==> Owned(b, k)
  {
    SameGeometry(Blank(), b.ships[i], c.ships[i], 0);
    hide Owns, OnBoard;
    if Owned(b, k) {
      var j :| 0 <= j < b.placed && Owns(b.ships[j], k);
      assert Owns(c.ships[j], k);
    }
    if Owned(c, k) {
      var j :| 0 <= j < c.placed && Owns(c.ships[j], k);
      assert Owns(b.ships[j], k);
    }
  }

  lemma GeometryKept(a: Ship, s: Ship, t: Ship)
    requires OnBoard(s) && t == s.(hits := t.hits)
    ensures Disjoint(a, s) ==> Disjoint(a, t)
    ensures Disjoint(s, a) ==> Disjoint(t, a)
    ensures Apart(a, s) ==> Apart(a, t)
    ensures Apart(s, a) ==> Apart(t, a)
  {
    SameGeometry(Blank(), s, t, 0);
    hide Owns, OnBoard, Near;
  }

  lemma DisjointBothWays(a: Ship, b: Ship)
    ensures Disjoint(a, b) == Disjoint(b, a)
  {
    hide Owns;
  }

  lemma HitKeepsInv(b: State, fired: bool, late: bool, k: nat)
    requires Inv(b, fired, late) && k < CELLS && b.grid[k] == ShipCell
    requires 0 <= ShipIndex(b, k) < b.placed && OnBoard(b.ships[ShipIndex(b, k)])
    ensures Inv(StrikeShip(b, k, ShipIndex(b, k)).1, true, late)
  {
    hide Owns, OnBoard, Disjoint, Apart, Owned, Painted, Agrees, ShipIndex;
    var i := ShipIndex(b, k);
    var s, c := b.ships[i], StrikeShip(b, k, i).1;
    var t := c.ships[i];
    IndexOwns(b, k);
    StruckShipAgrees(b.grid, s, k);
    forall l | 0 <= l < CELLS
      ensures (Owns(s, l) ==> (PartOfShip(b.grid[l]) ==> PartOfShip(c.grid[l]))) && (!Owns(s, l) ==> c.grid[l] == b.grid[l])
      ensures Owned(c, l) <==> Owned(b, l)
      ensures Owns(s, l) ==> Owned(b, l)
    {
      HitCells(b.grid, s, k, l);
      OwnedSame(b, c, i, l);
      OwnsMeansOwned(b, i, l);
    }
    forall j | 0 <= j < b.placed && j != i
      ensures Agrees(c.grid, c.ships[j])
      ensures j < i ==> Disjoint(c.ships[j], t) && (!late ==> Apart(c.ships[j], t))
      ensures i < j ==> Disjoint(t, c.ships[j]) && (!late ==> Apart(t, c.ships[j]))
    {
      DisjointBothWays(b.ships[j], s);
      UntouchedAgrees(b.grid, c.grid, b.ships[j], s);
      GeometryKept(b.ships[j], s, t);
    }
  }

  lemma IndexOwns(b: State, k: nat)
    ensures ShipIndex(b, k) >= 0 ==> Owns(b.ships[ShipIndex(b, k)], k)
  {
  }

  lemma OwnsMeansOwned(b: State, i: nat, k: nat)
    requires i < b.placed <= |b.ships|
    ensures Owns(b.ships[i], k) ==> Owned(b, k)
  {
  }

  lemma MissKeepsInv(b: State, fired: bool, late: bool, k: nat)
    requires Inv(b, fired, late) && k < CELLS && b.grid[k] == Empty
    ensures Inv(b.(grid := b.grid[k := Miss]), true, late)
  {
    hide Owns, OnBoard, Disjoint, Apart, Agrees;
    var c := b.(grid := b.grid[k := Miss]);
    forall i | 0 <= i < b.placed
      ensures Agrees(c.grid, c.ships[i])
    {
      OwnsMeansOwned(b, i, k);
      AgreesSame(b.grid, c.grid, b.ships[i]);
    }
  }

  /** Cells nobody has fired at. */
  function Unfired(b: State): set<nat> {
    set k: nat | k < |b.grid| && (b.grid[k] == Empty || b.grid[k] == ShipCell)
  }

  /** A shot keeps the agreement. */
  lemma ShotKeepsInv(b: State, fired: bool, late: bool, x: int, y: int)
    requires Inv(b, fired, late)
    ensures InBounds(x, y) && b.grid[Number(x, y)] == ShipCell ==>
              0 <= ShipIndex(b, Number(x, y)) < b.placed && OnBoard(b.ships[ShipIndex(b, Number(x, y))])
    ensures var (shot, c) := ReceiveShot(b, x, y); Inv(c, fired || shot != InvalidShot, late)
  {
    hide Inv, Owns, ShipIndex, OnBoard, StrikeShip, Agrees;
    InvShape(b, fired, late);
    if InBounds(x, y) {
      NumberParts(x, y);
      var k := Number(x, y);
      if b.grid[k] == ShipCell {
        ShipCellHasShip(b, fired, late, k);
        AgreeingIsOnBoard(b.grid, b.ships[ShipIndex(b, k)]);
        HitKeepsInv(b, fired, late, k);
        HitIsShot(b, k);
      } else if b.grid[k] == Empty {
        MissKeepsInv(b, fired, late, k);
      }
    }
  }

  lemma HitIsShot(b: State, k: nat)
    requires |b.grid| == CELLS && k < CELLS && 0 <= ShipIndex(b, k) && OnBoard(b.ships[ShipIndex(b, k)])
    ensures StrikeShip(b, k, ShipIndex(b, k)).0 != InvalidShot
  {
  }

  lemma InvShape(b: State, fired: bool, late: bool)
    requires Inv(b, fired, late)
    ensures Shape(b)
  {
  }

  lemma AgreeingIsOnBoard(g: seq<Cell>, s: Ship)
    requires |g| == CELLS && Agrees(g, s)
    ensures OnBoard(s)
  {
  }

  // ----- the fleet

  function Remaining(ships: seq<Ship>): nat {
    if ships == [] then 0
    else Remaining(ships[..|ships| - 1]) + if ships[|ships| - 1].placed && !ships[|ships| - 1].IsSunk() then 1 else 0
  }

  predicate Defeated(b: State) { b.placed > 0 && Remaining(b.ships) == 0 }

  lemma {:induction false} NoneRemaining(ships: seq<Ship>)
    ensures Remaining(ships) == 0 <==> forall i :: 0 <= i < |ships| && ships[i].placed ==> ships[i].IsSunk()
  {
    if ships != [] {
      var n := |ships| - 1;
      NoneRemaining(ships[..n]);
      assert forall i :: 0 <= i < n ==> ships[..n][i] == ships[i];
    }
  }

  /** A ship is sunk exactly when none of its cells shows a ship any more. */
  lemma SunkIff(grid: seq<Cell>, s: Ship)
    requires |grid| == CELLS && Agrees(grid, s)
    ensures s.IsSunk() <==> forall k :: 0 <= k < CELLS && Owns(s, k) ==> grid[k] == Sunk
    ensures s.IsSunk() <==> forall k :: 0 <= k < CELLS && Owns(s, k) ==> grid[k] != ShipCell
  {
    hide Owns, OnBoard, CellOf;
    AllStruck(grid, s, s.size);
    if forall k :: 0 <= k < CELLS && Owns(s, k) ==> grid[k] != ShipCell {
      forall j | 0 <= j < s.size
        ensures 0 <= CellOf(s, j) < CELLS && grid[CellOf(s, j)] != ShipCell
      {
        CellIsOwned(s, j);
      }
    }
  }

  /** The placed ships of the first `n` that still show a cell. */
  ghost function Afloat(b: State, n: nat): set<nat>
    requires |b.grid| == CELLS && n <= |b.ships|
  {
    set i: nat | i < n && b.ships[i].placed && exists k :: 0 <= k < CELLS && Owns(b.ships[i], k) && b.grid[k] == ShipCell
  }

  lemma {:induction false} RemainingCounts(b: State, fired: bool, late: bool, n: nat)
    requires Inv(b, fired, late) && n <= SHIPS
    ensures Remaining(b.ships[..n]) == |Afloat(b, n)|
    decreases n
  {
    hide Owns, OnBoard, Agrees, Disjoint, Apart, Owned;
    if n > 0 {
      var s := b.ships[n - 1];
      RemainingCounts(b, fired, late, n - 1);
      assert b.ships[..n][..n - 1] == b.ships[..n - 1];
      if s.placed {
        SunkIff(b.grid, s);
      }
      AfloatGrows(b, n, s.placed && !s.IsSunk());
    }
  }

  lemma AfloatGrows(b: State, n: nat, up: bool)
    requires |b.grid| == CELLS && 0 < n <= |b.ships|
    requires up <==> b.ships[n - 1].placed && exists k :: 0 <= k < CELLS && Owns(b.ships[n - 1], k) && b.grid[k] == ShipCell
    ensures |Afloat(b, n)| == |Afloat(b, n - 1)| + if up then 1 else 0
  {
    hide Owns;
    assert n - 1 !in Afloat(b, n - 1);
    if up {
      assert Afloat(b, n) == Afloat(b, n - 1) + {n - 1};
    } else {
      assert Afloat(b, n) == Afloat(b, n - 1);
    }
  }

  /** The ships remaining are those with a cell that nobody has struck. */
  lemma RemainingIsAfloat(b: State, fired: bool, late: bool)
    requires Inv(b, fired, late)
    ensures |b.ships| == 5 && Remaining(b.ships) == |Afloat(b, 5)|
  {
    hide Owns, OnBoard, Agrees, Disjoint, Apart, Owned;
    RemainingCounts(b, fired, late, SHIPS);
    assert b.ships[..SHIPS] == b.ships;
  }

  /** The player is defeated exactly when a ship was placed and no cell shows a ship any more. */
  lemma DefeatedIff(b: State, fired: bool, late: bool)
    requires Inv(b, fired, late)
    ensures Defeated(b) <==> b.placed > 0 && forall k :: 0 <= k < CELLS ==> b.grid[k] != ShipCell
  {
    hide Owns, OnBoard;
    NoneRemaining(b.ships);
    forall i | 0 <= i < b.placed
      ensures b.ships[i].IsSunk() <==> forall k :: 0 <= k < CELLS && Owns(b.ships[i], k) ==> b.grid[k] != ShipCell
    {
      SunkIff(b.grid, b.ships[i]);
    }
  }

  /** Every shot that is not refused fires at exactly one cell nobody has fired at. */
  lemma ShotUsesOneCell(b: State, fired: bool, late: bool, x: int, y: int)
    requires Inv(b, fired, late)
    ensures InBounds(x, y) && b.grid[Number(x, y)] == ShipCell ==>
              0 <= ShipIndex(b, Number(x, y)) < b.placed && OnBoard(b.ships[ShipIndex(b, Number(x, y))])
    ensures var (shot, c) := ReceiveShot(b, x, y);
            if shot == InvalidShot then c == b
            else InBounds(x, y) && Number(x, y) in Unfired(b) && Unfired(c) == Unfired(b) - {Number(x, y)}
  {
    hide Owns, ShipIndex, OnBoard, Agrees, Disjoint, Apart, Owned, Painted;
    ShotKeepsInv(b, fired, late, x, y);
    if InBounds(x, y) && b.grid[Number(x, y)] == ShipCell {
      NumberParts(x, y);
      var k := Number(x, y);
      var i := ShipIndex(b, k);
      ShipCellHasShip(b, fired, late, k);
      IndexOwns(b, k);
      forall l: nat | l < CELLS
        ensures l != k ==> (Unstruck(StrikeShip(b, k, i).1.grid[l]) <==> Unstruck(b.grid[l]))
        ensures !Unstruck(StrikeShip(b, k, i).1.grid[k])
      {
        HitLeavesOthers(b.grid, b.ships[i], k, l);
      }
      assert Unfired(StrikeShip(b, k, i).1) == Unfired(b) - {k};
    }
  }

  predicate Unstruck(c: Cell) { c == Empty || c == ShipCell }

  lemma HitLeavesOthers(g: seq<Cell>, s: Ship, k: nat, l: nat)
    requires |g| == CELLS && k < CELLS && l < CELLS && Agrees(g, s) && Owns(s, k) && g[k] == ShipCell
    ensures var t := s.(hits := s.hits + 1);
            OnBoard(t) &&
            var h := if t.IsSunk() then Painted(g[k := Hit], t, t.size, Sunk) else g[k := Hit];
            (l != k ==> (Unstruck(h[l]) <==> Unstruck(g[l]))) && !Unstruck(h[k])
  {
    hide CellOf, Offset, OnBoard;
    var t, h := s.(hits := s.hits + 1), g[k := Hit];
    SameGeometry(h, s, t, s.size);
    WholePainted(h, t, Sunk, l);
    WholePainted(h, t, Sunk, k);
    if t.IsSunk() {
      StruckShipAgrees(g, s, k);
      OwnedIsCell(s, k);
      OneMoreStruck(g, s, Offset(s, k), Hit, s.size);
      SameGeometry(h, s, t, s.size);
      AllStruck(h, s, s.size);
      if Owns(s, l) {
        OwnedIsCell(s, l);
      }
    }
  }

  /** Another unstruck cell of the ship on cell `k`. */
  predicate AnotherLeft(b: State, i: nat, k: nat, l: nat)
    requires i < |b.ships| && |b.grid| == CELLS
  {
    l < CELLS && l != k && Owns(b.ships[i], l) && b.grid[l] == ShipCell
  }

  /** The ship that has cell `k` has other cells left to strike. */
  ghost predicate SomeLeft(b: State, k: nat)
    requires Shape(b)
  {
    exists i, l :: 0 <= i < b.placed && Owns(b.ships[i], k) && AnotherLeft(b, i, k, l)
  }

  /** A strike sinks the ship exactly when it was its last unstruck cell. */
  lemma StrikeAnswer(b: State, fired: bool, late: bool, k: nat)
    requires Inv(b, fired, late) && k < CELLS && b.grid[k] == ShipCell
    ensures var i := ShipIndex(b, k);
            && 0 <= i < b.placed && OnBoard(b.ships[i])
            && var (shot, c) := StrikeShip(b, k, i);
               && shot == (if SomeLeft(b, k) then HitShot else SunkShot)
               && |c.grid| == CELLS
               && forall l :: 0 <= l < CELLS ==>
                    c.grid[l] == if shot == SunkShot && Owns(b.ships[i], l) then Sunk else if l == k then Hit else b.grid[l]
  {
    hide Owns, OnBoard, Disjoint, Apart, Owned, Painted, ShipIndex, CellOf, Offset;
    ShipCellHasShip(b, fired, late, k);
    IndexOwns(b, k);
    var i := ShipIndex(b, k);
    var s := b.ships[i];
    StrikeCounts(b.grid, s, k);
    var t := s.(hits := s.hits + 1);
    SameGeometry(b.grid, s, t, 0);
    forall l | 0 <= l < CELLS
      ensures t.IsSunk() ==> Painted(b.grid[k := Hit], t, t.size, Sunk)[l] == if Owns(s, l) then Sunk else b.grid[k := Hit][l]
    {
      WholePainted(b.grid[k := Hit], t, Sunk, l);
    }
    OnlyOneShip(b, fired, late, k, i);
    if !t.IsSunk() {
      var l :| 0 <= l < CELLS && l != k && Owns(s, l) && b.grid[l] == ShipCell;
      assert AnotherLeft(b, i, k, l);
    }
  }

  /** The ship on a cell is the only one there. */
  lemma OnlyOneShip(b: State, fired: bool, late: bool, k: nat, i: nat)
    requires Inv(b, fired, late) && k < CELLS && i < b.placed && Owns(b.ships[i], k)
    ensures forall j :: 0 <= j < b.placed && Owns(b.ships[j], k) ==> j == i
  {
    hide Owns, Agrees, Apart, Owned;
    forall j | 0 <= j < b.placed && j != i
      ensures !Owns(b.ships[j], k)
    {
      if j < i {
        assert Disjoint(b.ships[j], b.ships[i]);
      } else {
        assert Disjoint(b.ships[i], b.ships[j]);
      }
    }
  }

  /** One more strike is the last one exactly when no other cell of the ship still shows it. */
  lemma StrikeCounts(g: seq<Cell>, s: Ship, k: nat)
    requires |g| == CELLS && k < CELLS && Agrees(g, s) && Owns(s, k) && g[k] == ShipCell
    ensures s.hits + 1 >= s.size <==> forall l :: 0 <= l < CELLS && Owns(s, l) && l != k ==> g[l] != ShipCell
  {
    hide Owns, OnBoard, CellOf, Offset;
    var h := g[k := Hit];
    OwnedIsCell(s, k);
    OneMoreStruck(g, s, Offset(s, k), Hit, s.size);
    AllStruck(h, s, s.size);
    forall j | 0 <= j < s.size
      ensures 0 <= CellOf(s, j) < CELLS && Owns(s, CellOf(s, j))
    {
      CellIsOwned(s, j);
    }
    if s.hits + 1 >= s.size {
      forall l | 0 <= l < CELLS && Owns(s, l) && l != k
        ensures g[l] != ShipCell
      {
        OwnedIsCell(s, l);
        assert h[CellOf(s, Offset(s, l))] != ShipCell;
      }
    }
  }

  /** The answer to a shot, by the grid: nothing happens off the board and on a cell that was fired at; a shot at an empty
      cell misses; a shot at a ship sinks it where it was the ship's last unstruck cell, and hits it otherwise. Only that
      cell changes, but for the cells of a ship that is sunk. */
  lemma ShotAnswer(b: State, fired: bool, late: bool, x: int, y: int)
    requires Inv(b, fired, late)
    ensures InBounds(x, y) && b.grid[Number(x, y)] == ShipCell ==>
              0 <= ShipIndex(b, Number(x, y)) < b.placed && OnBoard(b.ships[ShipIndex(b, Number(x, y))])
    ensures ShotAnswers(b, x, y, ReceiveShot(b, x, y).0, ReceiveShot(b, x, y).1)
  {
    hide Owns, OnBoard, Disjoint, Apart, Owned, ShipIndex, StrikeShip, Agrees, SomeLeft;
    if InBounds(x, y) {
      NumberParts(x, y);
      var k := Number(x, y);
      if b.grid[k] == ShipCell {
        StrikeAnswer(b, fired, late, k);
        IndexOwns(b, k);
        OnlyOneShip(b, fired, late, k, ShipIndex(b, k));
      }
    }
  }

  ghost predicate ShotAnswers(b: State, x: int, y: int, shot: Shot, c: State)
    requires Shape(b)
  {
    if !(0 <= x < 10 && 0 <= y < 10) then shot == InvalidShot && c == b
    else
      var k := 10 * y + x;
      match b.grid[k]
      case Hit => shot == InvalidShot && c == b
      case Miss => shot == InvalidShot && c == b
      case Sunk => shot == InvalidShot && c == b
      case Empty => shot == MissShot && c == b.(grid := b.grid[k := Miss])
      case ShipCell =>
        && shot == (if SomeLeft(b, k) then HitShot else SunkShot)
        && |c.grid| == CELLS
        && (forall l :: 0 <= l < CELLS && l != k && (shot == HitShot || !SameShip(b, k, l)) ==> c.grid[l] == b.grid[l])
        && (forall l :: 0 <= l < CELLS && shot == SunkShot && SameShip(b, k, l) ==> c.grid[l] == Sunk)
        && c.grid[k] == (if shot == SunkShot then Sunk else Hit)
  }

  /** Two cells of one ship. */
  ghost predicate SameShip(b: State, k: nat, l: nat) {
    exists i :: 0 <= i < b.placed <= |b.ships| && Owns(b.ships[i], k) && Owns(b.ships[i], l)
  }

  // ----- every run

  datatype Move = Place(x: int, y: int, horizontal: bool) | Fire(x: int, y: int)

  function Unplaced(i: nat): Ship { Ship(Size(i), 0, 0, true, 0, false) }

  function FreshBoard(): State { State(Blank(), [Unplaced(0), Unplaced(1), Unplaced(2), Unplaced(3), Unplaced(4)], 0) }

  /** A board with what the moves so far have been. */
  datatype Game = Game(board: State, fired: bool, late: bool)

  ghost predicate Sound(g: Game) { Inv(g.board, g.fired, g.late) }

  ghost function Play(g: Game, move: Move): (r: Game)
    requires Sound(g)
    ensures Sound(r)
  {
    match move
    case Place(x, y, horizontal) =>
      PlacingKeepsInv(g.board, g.fired, g.late, x, y, horizontal);
      var (ok, c) := PlaceNext(g.board, x, y, horizontal);
      Game(c, g.fired, g.late || (ok && g.fired))
    case Fire(x, y) =>
      ShotKeepsInv(g.board, g.fired, g.late, x, y);
      var (shot, c) := ReceiveShot(g.board, x, y);
      Game(c, g.fired || shot != InvalidShot, g.late)
  }

  lemma FreshIsSound()
    ensures Inv(FreshBoard(), false, false)
  {
    hide Owns, Agrees;
  }

  ghost function PlayAll(moves: seq<Move>): (r: Game)
    ensures Sound(r)
  {
    hide Play, Sound;
    if moves == [] then StartIsSound(); Game(FreshBoard(), false, false)
    else Play(PlayAll(moves[..|moves| - 1]), moves[|moves| - 1])
  }

  lemma StartIsSound()
    ensures Sound(Game(FreshBoard(), false, false))
  {
    FreshIsSound();
  }

  predicate OnlyPlacements(moves: seq<Move>) { forall i :: 0 <= i < |moves| ==> moves[i].Place? }

  /** Every placement comes before every shot. */
  predicate PlacementsFirst(moves: seq<Move>) {
    moves == [] || (PlacementsFirst(moves[..|moves| - 1]) && (moves[|moves| - 1].Place? ==> OnlyPlacements(moves)))
  }

  lemma {:induction false} FlagsOfRun(moves: seq<Move>)
    ensures OnlyPlacements(moves) ==> !PlayAll(moves).fired
    ensures PlacementsFirst(moves) ==> !PlayAll(moves).late
  {
    hide Sound;
    if moves != [] {
      var n := |moves| - 1;
      var front := moves[..n];
      FlagsOfRun(front);
      assert OnlyPlacements(moves) ==> OnlyPlacements(front);
      LateOnlyAfterShot(PlayAll(front), moves[n]);
    }
  }

  /** No cell of one ship is a cell of another one. */
  predicate NoOverlap(b: State)
    requires Shape(b)
  {
    forall i, j :: 0 <= i < j < b.placed ==> Disjoint(b.ships[i], b.ships[j])
  }

  predicate NoContact(b: State)
    requires Shape(b)
  {
    forall i, j :: 0 <= i < j < b.placed ==> Apart(b.ships[i], b.ships[j])
  }

  /** A record that lies on the board, counts the ship's struck cells, and is sunk exactly where its cells show it. */
  predicate TrueRecord(grid: seq<Cell>, s: Ship)
    requires |grid| == CELLS
  {
    && OnBoard(s) && s.placed && s.hits == Struck(grid, s, s.size)
    && forall k :: 0 <= k < CELLS && Owns(s, k) ==> (s.IsSunk() <==> grid[k] == Sunk)
  }

  /** Grid and fleet agree after every run of placements and shots in any order: the records are true, ships do not
      overlap, the cells that show part of a ship are the placed ships' cells, and the player is defeated exactly when a
      ship was placed and no cell shows one. If all placements came before the shots, no two ships touch. */
  lemma EveryRunAgrees(moves: seq<Move>)
    ensures var b := PlayAll(moves).board;
            && Shape(b)
            && (forall i :: 0 <= i < b.placed ==> TrueRecord(b.grid, b.ships[i]))
            && NoOverlap(b)
            && (PlacementsFirst(moves) ==> NoContact(b))
            && (forall k :: 0 <= k < CELLS ==> (PartOfShip(b.grid[k]) <==> Owned(b, k)))
            && (Defeated(b) <==> b.placed > 0 && forall k :: 0 <= k < CELLS ==> b.grid[k] != ShipCell)
  {
    hide PlayAll, Owns, OnBoard, Disjoint, Apart, Owned, Defeated, Struck;
    var g := PlayAll(moves);
    FlagsOfRun(moves);
    DefeatedIff(g.board, g.fired, g.late);
  }

  /** After every run, the answer to the next shot is what the grid says. */
  lemma EveryShotAnswers(moves: seq<Move>, x: int, y: int)
    ensures var g := PlayAll(moves);
            && Shape(g.board)
            && (forall i :: 0 <= i < 5 ==> g.board.ships[i].size == [5, 4, 3, 3, 2][i])
            && (InBounds(x, y) && g.board.grid[Number(x, y)] == ShipCell ==>
                  0 <= ShipIndex(g.board, Number(x, y)) < g.board.placed && OnBoard(g.board.ships[ShipIndex(g.board, Number(x, y))]))
            && var (shot, c) := ReceiveShot(g.board, x, y);
               ShotAnswers(g.board, x, y, shot, c) && PlayAll(moves + [Fire(x, y)]).board == c
  {
    hide Owns, OnBoard, ShipIndex, StrikeShip, Agrees, SomeLeft, ShotAnswers, Owned, Disjoint, Apart;
    var g := PlayAll(moves);
    ShotAnswer(g.board, g.fired, g.late, x, y);
    var all := moves + [Fire(x, y)];
    assert all[..|all| - 1] == moves;
    hide PlayAll;
    PlayedLast(all);
  }

  lemma PlayedLast(moves: seq<Move>)
    requires moves != []
    ensures PlayAll(moves) == Play(PlayAll(moves[..|moves| - 1]), moves[|moves| - 1])
  {
    hide Play, Sound;
  }

  lemma LateOnlyAfterShot(g: Game, move: Move)
    requires Sound(g)
    ensures Play(g, move).late ==> g.late || (move.Place? && g.fired)
    ensures Play(g, move).fired ==> g.fired || move.Fire?
  {
    hide Sound, PlaceNext, ReceiveShot;
  }

  // ----- ships placed after a shot

  /** A ship that may be placed touches no other exactly when no struck cell is near it: the placing rule itself looks
      at cells that still show a ship. */
  lemma TouchesNoneIff(b: State, fired: bool, late: bool, s: Ship)
    requires Inv(b, fired, late) && CanPlace(b.grid, s)
    ensures (forall i :: 0 <= i < b.placed ==> Apart(b.ships[i], s)) <==>
            forall k, l :: 0 <= k < CELLS && 0 <= l < CELLS && Owns(s, k) && Near(k, l) ==> !PartOfShip(b.grid[l])
  {
    hide Owns, Agrees, OnBoard, Near, CanPlace;
    ShapeOf(b);
    if forall i :: 0 <= i < b.placed ==> Apart(b.ships[i], s) {
      forall k, l | 0 <= k < CELLS && 0 <= l < CELLS && Owns(s, k) && Near(k, l)
        ensures !PartOfShip(b.grid[l])
      {
        NearBothWays(k, l);
      }
    }
    if forall k, l :: 0 <= k < CELLS && 0 <= l < CELLS && Owns(s, k) && Near(k, l) ==> !PartOfShip(b.grid[l]) {
      forall i, l, k | 0 <= i < b.placed && 0 <= l < CELLS && 0 <= k < CELLS && Owns(b.ships[i], l) && Owns(s, k)
        ensures !Near(l, k)
      {
        OwnsMeansOwned(b, i, l);
        NearBothWays(k, l);
      }
    }
  }

  /** Such a run: the second ship is placed diagonally next to the struck end of the first. */
  lemma LateShipTouches()
    ensures var b := PlayAll([Place(0, 0, true), Fire(4, 0), Place(5, 1, false)]).board;
            b.placed == 2 && |b.ships| == SHIPS && !Apart(b.ships[0], b.ships[1])
  {
    hide Play, Sound;
    var m := [Place(0, 0, true), Fire(4, 0), Place(5, 1, false)];
    assert m[..2][..1] == m[..1] && m[..1][..0] == [];
    var g := PlayAll(m[..1][..0]);
    assert g == Game(FreshBoard(), false, false);
    FirstShip(g);
    FirstShot(PlayAll(m[..1]));
    SecondShip(PlayAll(m[..2]));
  }

  const FIRST := Ship(5, 0, 0, true, 0, true)
  const STRUCK := Ship(5, 0, 0, true, 1, true)
  const SECOND := Ship(4, 5, 1, false, 0, true)

  /** The first ship alone on the board, with `hit` for its last cell. */
  predicate FirstAlone(b: State, ship: Ship, hit: Cell) {
    && |b.grid| == CELLS && |b.ships| == SHIPS && b.placed == 1 && b.ships[0] == ship
    && forall k :: 0 <= k < CELLS ==> b.grid[k] == if k == 4 then hit else if k < 4 then ShipCell else Empty
  }

  lemma FirstShip(g: Game)
    requires g == Game(FreshBoard(), false, false) && Sound(g)
    ensures FirstAlone(Play(g, Place(0, 0, true)).board, FIRST, ShipCell)
  {
    var b := g.board;
    assert CanPlace(b.grid, FIRST);
    forall k: nat | k < CELLS
      ensures Painted(b.grid, FIRST, 5, ShipCell)[k] == if k < 5 then ShipCell else Empty
    {
      WholePainted(b.grid, FIRST, ShipCell, k);
    }
  }

  lemma FirstShot(g: Game)
    requires Sound(g) && FirstAlone(g.board, FIRST, ShipCell)
    ensures FirstAlone(Play(g, Fire(4, 0)).board, STRUCK, Hit)
  {
    hide Sound, Agrees, Painted;
    assert Number(4, 0) == 4 && Owns(FIRST, 4);
    assert ShipIndex(g.board, 4) == 0;
  }

  lemma SecondShip(g: Game)
    requires Sound(g) && FirstAlone(g.board, STRUCK, Hit)
    ensures var b := Play(g, Place(5, 1, false)).board;
            b.placed == 2 && |b.ships| == SHIPS && !Apart(b.ships[0], b.ships[1])
  {
    hide Sound, Agrees, Painted;
    assert CanPlace(g.board.grid, SECOND);
    assert Owns(STRUCK, 4) && Owns(SECOND, 15) && Near(4, 15);
  }

  // ----- the board as the program writes it

  /** One cell of a candidate: empty, and no ship cell around it. */
  predicate CellFree(grid: seq<Cell>, s: Ship, j: nat)
    requires |grid| == CELLS
  {
    && InBounds(CellX(s, j), CellY(s, j)) && grid[CellOf(s, j)] == Empty
    && forall dx, dy :: -1 <= dx <= 1 && -1 <= dy <= 1 ==> NeighbourFree(grid, CellX(s, j), CellY(s, j), dx, dy)
  }

  predicate NeighbourFree(grid: seq<Cell>, x: int, y: int, dx: int, dy: int)
    requires |grid| == CELLS
  {
    InBounds(x + dx, y + dy) ==> grid[Number(x + dx, y + dy)] != ShipCell
  }

  lemma CellFreeMeans(grid: seq<Cell>, s: Ship, j: nat)
    requires |grid| == CELLS && OnBoard(s) && j < s.size
    ensures 0 <= CellOf(s, j) < CELLS
    ensures CellFree(grid, s, j) <==>
            grid[CellOf(s, j)] == Empty && forall l :: 0 <= l < CELLS && Near(CellOf(s, j), l) ==> grid[l] != ShipCell
  {
    hide Owns, Offset, OnBoard;
    CellIsOwned(s, j);
    var x, y, k := CellX(s, j), CellY(s, j), CellOf(s, j);
    NumberParts(x, y);
    if CellFree(grid, s, j) {
      forall l | 0 <= l < CELLS && Near(k, l)
        ensures grid[l] != ShipCell
      {
        NumberParts(l % 10, l / 10);
        assert NeighbourFree(grid, x, y, l % 10 - x, l / 10 - y);
      }
    }
    if grid[k] == Empty && forall l :: 0 <= l < CELLS && Near(k, l) ==> grid[l] != ShipCell {
      forall dx, dy | -1 <= dx <= 1 && -1 <= dy <= 1
        ensures NeighbourFree(grid, x, y, dx, dy)
      {
        if InBounds(x + dx, y + dy) {
          NumberParts(x + dx, y + dy);
          assert Near(k, Number(x + dx, y + dy));
        }
      }
    }
  }

  lemma CanPlaceByCells(grid: seq<Cell>, s: Ship)
    requires |grid| == CELLS && OnBoard(s)
    ensures CanPlace(grid, s) <==> forall j :: 0 <= j < s.size ==> CellFree(grid, s, j)
  {
    hide Owns, Offset, OnBoard, CellFree, Near, CellOf;
    forall j | 0 <= j < s.size
      ensures 0 <= CellOf(s, j) < CELLS && Owns(s, CellOf(s, j))
    {
      CellIsOwned(s, j);
      CellFreeMeans(grid, s, j);
    }
    forall j | 0 <= j < s.size
      ensures CellFree(grid, s, j) <==>
              grid[CellOf(s, j)] == Empty && forall l :: 0 <= l < CELLS && Near(CellOf(s, j), l) ==> grid[l] != ShipCell
    {
      CellFreeMeans(grid, s, j);
    }
    forall k | 0 <= k < CELLS && Owns(s, k)
      ensures 0 <= Offset(s, k) < s.size && CellOf(s, Offset(s, k)) == k
    {
      OwnedIsCell(s, k);
    }
  }

  class Board {
    const grid: array2<Cell>
    const ships: array<Ship>
    var placedCount: nat
    ghost var fired: bool
    ghost var late: bool

    ghost function Cells(): (r: seq<Cell>)
      reads grid
      requires grid.Length0 == GRID && grid.Length1 == GRID
      ensures |r| == CELLS && forall k :: 0 <= k < CELLS ==> r[k] == grid[k / 10, k % 10]
    {
      seq(CELLS, k requires 0 <= k < CELLS reads grid => grid[k / 10, k % 10])
    }

    ghost function Value(): State
      reads this, grid, ships
      requires grid.Length0 == GRID && grid.Length1 == GRID
    {
      State(Cells(), ships[..], placedCount)
    }

    ghost predicate Valid()
      reads this, grid, ships
    {
      grid.Length0 == GRID && grid.Length1 == GRID && ships.Length == SHIPS && Inv(Value(), fired, late)
    }

    constructor ()
      ensures Valid() && Value() == FreshBoard() && !fired && !late && fresh(grid) && fresh(ships)
    {
      grid := new Cell[GRID, GRID]((_, _) => Empty);
      ships := new Ship[SHIPS](i => Unplaced(i));
      placedCount, fired, late := 0, false, false;
      new;
      assert Cells() == Blank();
      assert ships[..] == FreshBoard().ships;
      FreshIsSound();
    }

    /** One cell. */
    method SetCell(x: int, y: int, c: Cell)
      requires grid.Length0 == GRID && grid.Length1 == GRID && InBounds(x, y)
      modifies grid
      ensures 0 <= Number(x, y) < CELLS && Cells() == old(Cells())[Number(x, y) := c]
    {
      NumberParts(x, y);
      ghost var before := Cells();
      grid[y, x] := c;
      forall k | 0 <= k < CELLS
        ensures Cells()[k] == before[Number(x, y) := c][k]
      {
      }
    }

    method At(x: int, y: int) returns (c: Cell)
      requires Valid()
      ensures c == if InBounds(x, y) then grid[y, x] else Empty
    {
      c := if InBounds(x, y) then grid[y, x] else Empty;
    }

    method NextShipSize() returns (n: nat)
      requires Valid()
      ensures n == if placedCount >= SHIPS then 0 else Size(placedCount)
    {
      n := if placedCount >= SHIPS then 0 else Size(placedCount);
    }

    /** The neighbour loops of can_place around one cell. */
    method CanHold(s: Ship, j: nat) returns (ok: bool)
      requires grid.Length0 == GRID && grid.Length1 == GRID && OnBoard(s) && j < s.size
      ensures ok == CellFree(Cells(), s, j)
    {
      hide OnBoard;
      var cx, cy := CellX(s, j), CellY(s, j);
      CellIsOwned(s, j);
      NumberParts(cx, cy);
      ghost var cells := Cells();
      if grid[cy, cx] != Empty {
        return false;
      }
      for dy := -1 to 2
        invariant forall v, u :: -1 <= v < dy && -1 <= u <= 1 ==> NeighbourFree(cells, cx, cy, u, v)
      {
        for dx := -1 to 2
          invariant forall u :: -1 <= u < dx ==> NeighbourFree(cells, cx, cy, u, dy)
        {
          var ax, ay := cx + dx, cy + dy;
          if InBounds(ax, ay) {
            NumberParts(ax, ay);
            if grid[ay, ax] == ShipCell {
              assert !NeighbourFree(cells, cx, cy, dx, dy);
              return false;
            }
          }
        }
      }
      return true;
    }

    method CanPlaceShip(s: Ship) returns (ok: bool)
      requires grid.Length0 == GRID && grid.Length1 == GRID
      ensures ok == CanPlace(Cells(), s)
    {
      hide CellFree, CanPlace;
      OffBoardCannot(Cells(), s);
      if s.size <= 0 {
        return false;
      }
      if s.horizontal {
        if s.x < 0 || s.y < 0 || s.x + s.size > GRID || s.y >= GRID {
          return false;
        }
      } else {
        if s.x < 0 || s.y < 0 || s.y + s.size > GRID || s.x >= GRID {
          return false;
        }
      }
      CanPlaceByCells(Cells(), s);
      for i := 0 to s.size
        invariant forall j :: 0 <= j < i ==> CellFree(Cells(), s, j)
      {
        var free := CanHold(s, i);
        if !free {
          return false;
        }
      }
      return true;
    }

    /** Sets all cells of a ship. */
    method Paint(s: Ship, c: Cell)
      requires grid.Length0 == GRID && grid.Length1 == GRID && OnBoard(s)
      modifies grid
      ensures Cells() == Painted(old(Cells()), s, s.size, c)
    {
      hide OnBoard, CellOf;
      for i := 0 to s.size
        invariant Cells() == Painted(old(Cells()), s, i, c)
      {
        CellIsOwned(s, i);
        CellNumber(s, i);
        SetCell(CellX(s, i), CellY(s, i), c);
      }
    }

    method PlaceNextShip(x: int, y: int, horizontal: bool) returns (ok: bool)
      requires Valid()
      modifies this, grid, ships
      ensures Valid() && (ok, Value()) == PlaceNext(old(Value()), x, y, horizontal)
      ensures fired == old(fired) && late == (old(late) || (ok && old(fired)))
    {
      hide Inv, CanPlace, Painted;
      InvShape(Value(), fired, late);
      PlacingKeepsInv(Value(), fired, late, x, y, horizontal);
      if placedCount >= SHIPS {
        return false;
      }
      var s := Ship(Size(placedCount), x, y, horizontal, 0, true);
      ok := CanPlaceShip(s);
      if !ok {
        return;
      }
      CanPlaceMeans(Cells(), s);
      Paint(s, ShipCell);
      ships[placedCount] := s;
      placedCount := placedCount + 1;
      late := late || fired;
    }

    /** ship_index_at. */
    method ShipIndexAt(x: int, y: int) returns (idx: int)
      requires ships.Length == SHIPS && InBounds(x, y)
      ensures 0 <= Number(x, y) && idx == ShipIndexFrom(ships[..], Number(x, y), 0)
    {
      hide Owns;
      NumberParts(x, y);
      ghost var k: nat := Number(x, y);
      for i := 0 to SHIPS
        invariant ShipIndexFrom(ships[..], k, 0) == ShipIndexFrom(ships[..], k, i)
      {
        var s := ships[i];
        if s.placed {
          NotOwned(s, x, y);
          var dx, dy := if s.horizontal then 1 else 0, if s.horizontal then 0 else 1;
          for j := 0 to s.size
            invariant forall m :: 0 <= m < j ==> !HasCell(s, m, x, y)
          {
            if s.x + j * dx == x && s.y + j * dy == y {
              assert HasCell(s, j, x, y);
              return i;
            }
          }
        }
      }
      return -1;
    }

    method ReceiveShotAt(x: int, y: int) returns (shot: Shot)
      requires Valid()
      modifies this, grid, ships
      ensures Valid()
      ensures InBounds(x, y) && old(Value()).grid[Number(x, y)] == ShipCell ==>
                0 <= ShipIndex(old(Value()), Number(x, y)) && OnBoard(old(Value()).ships[ShipIndex(old(Value()), Number(x, y))])
      ensures (shot, Value()) == ReceiveShot(old(Value()), x, y)
      ensures fired == (old(fired) || shot != InvalidShot) && late == old(late)
    {
      hide Inv, Painted, ShipIndex, OnBoard;
      ghost var before := Value();
      InvShape(before, fired, late);
      ShotKeepsInv(before, fired, late, x, y);
      if !InBounds(x, y) {
        return InvalidShot;
      }
      NumberParts(x, y);
      var c := grid[y, x];
      if c == Hit || c == Miss || c == Sunk {
        return InvalidShot;
      }
      fired := true;
      if c != ShipCell {
        SetCell(x, y, Miss);
        return MissShot;
      }
      SetCell(x, y, Hit);
      var idx := ShipIndexAt(x, y);
      IndexIsOfFleet(before, Number(x, y));
      ships[idx] := ships[idx].(hits := ships[idx].hits + 1);
      var s := ships[idx];
      if !s.IsSunk() {
        return HitShot;
      }
      SameGeometry(Blank(), before.ships[idx], s, 0);
      Paint(s, Sunk);
      return SunkShot;
    }

    method ShipsRemaining() returns (n: nat)
      requires Valid()
      ensures n == Remaining(Value().ships)
    {
      hide Inv;
      n := 0;
      for i := 0 to SHIPS
        invariant n == Remaining(ships[..i])
      {
        assert ships[..i + 1][..i] == ships[..i];
        if ships[i].placed && !ships[i].IsSunk() {
          n := n + 1;
        }
      }
      assert ships[..SHIPS] == ships[..];
    }

    method IsDefeated() returns (d: bool)
      requires Valid()
      ensures d == Defeated(Value())
      ensures d <==> placedCount > 0 && forall k :: 0 <= k < CELLS ==> Cells()[k] != ShipCell
    {
      hide Inv, Remaining;
      DefeatedIff(Value(), fired, late);
      var n := ShipsRemaining();
      d := placedCount > 0 && n == 0;
    }
  }

  lemma OffBoardCannot(grid: seq<Cell>, s: Ship)
    requires |grid| == CELLS
    ensures CanPlace(grid, s) ==> OnBoard(s)
  {
  }

  lemma CellNumber(s: Ship, j: nat)
    ensures CellOf(s, j) == Number(CellX(s, j), CellY(s, j))
  {
  }

  predicate HasCell(s: Ship, m: nat, x: int, y: int) { CellX(s, m) == x && CellY(s, m) == y }

  lemma IndexIsOfFleet(b: State, k: nat)
    ensures ShipIndex(b, k) == ShipIndexFrom(b.ships, k, 0)
  {
  }

  /** The loop over a ship's cells finds it exactly when the ship owns the cell. */
  lemma NotOwned(s: Ship, x: int, y: int)
    requires InBounds(x, y)
    ensures 0 <= Number(x, y)
    ensures (forall m :: 0 <= m < s.size ==> !HasCell(s, m, x, y)) ==> !Owns(s, Number(x, y))
    ensures forall m :: 0 <= m < s.size && HasCell(s, m, x, y) ==> Owns(s, Number(x, y))
  {
    NumberParts(x, y);
    if Owns(s, Number(x, y)) {
      var m := if s.horizontal then x - s.x else y - s.y;
      assert HasCell(s, m, x, y);
    }
  }
}
