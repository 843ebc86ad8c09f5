/**
 * Coordinates, cell contents and the row-major board of game.cpp
 * (`Coord`, `Board::Field`, `Board`).
 */
module Grid {
  import opened Arith

  /** Two-dimensional coordinates: a position, a board size or a move delta. */
  datatype Coord = Coord(x: int, y: int)

  /** Component-wise sum (`Coord::operator+`). */
  function Add(a: Coord, b: Coord): Coord
  {
    Coord(a.x + b.x, a.y + b.y)
  }

  /** The ordering of `Coord::operator<`: by x, then by y. */
  predicate Less(a: Coord, b: Coord)
  {
    a.x < b.x || (a.x == b.x && a.y < b.y)
  }

  /** `Less` is a strict total order on coordinates. */
  lemma LessIsStrictTotalOrder(a: Coord, b: Coord, c: Coord)
    ensures !Less(a, a)
    ensures Less(a, b) ==> !Less(b, a)
    ensures Less(a, b) && Less(b, c) ==> Less(a, c)
    ensures a != b ==> Less(a, b) || Less(b, a)
  {
  }

  /** The content of one cell; the player is tracked outside the grid. */
  datatype Field = Empty | Wall | Box | BoxOnGoal | Goal

  /** A box stands on the cell (on a goal or not). */
  predicate HasBox(f: Field)
  {
    f == Box || f == BoxOnGoal
  }

  /** The cell is a goal cell (covered by a box or not). */
  predicate IsGoalCell(f: Field)
  {
    f == Goal || f == BoxOnGoal
  }

  /** The player or a box may move into the cell. */
  predicate IsFree(f: Field)
  {
    f == Empty || f == Goal
  }

  /** A row-major grid: `fields[x + width * y]` holds cell (x, y). */
  datatype Board = Board(dimensions: Coord, fields: seq<Field>)

  /** The grid holds exactly width * height cells. */
  predicate WellFormed(b: Board)
  {
    && b.dimensions.x >= 0
    && b.dimensions.y >= 0
    && |b.fields| == b.dimensions.x * b.dimensions.y
  }

  predicate InBounds(b: Board, c: Coord)
  {
    0 <= c.x < b.dimensions.x && 0 <= c.y < b.dimensions.y
  }

  /** The row-major index of a position (`Board::get_index`). */
  function GetIndex(b: Board, c: Coord): (i: int)
    ensures WellFormed(b) && InBounds(b, c) ==> 0 <= i < |b.fields|
  {
    RowMajorFacts(b, c);
    c.x + b.dimensions.x * c.y
  }

  lemma RowMajorFacts(b: Board, c: Coord)
    ensures WellFormed(b) && InBounds(b, c) ==> 0 <= c.x + b.dimensions.x * c.y < |b.fields|
  {
    if WellFormed(b) && InBounds(b, c) {
      RowMajorBound(c.x, c.y, b.dimensions.x, b.dimensions.y);
    }
  }

  /** Distinct in-bounds positions occupy distinct indices. */
  lemma IndexInjective(b: Board, c: Coord, d: Coord)
    requires InBounds(b, c) && InBounds(b, d)
    ensures GetIndex(b, c) == GetIndex(b, d) <==> c == d
  {
    var w := b.dimensions.x;
    if GetIndex(b, c) == GetIndex(b, d) {
      DivMod(c.y, c.x, w);
      DivMod(d.y, d.x, w);
    }
  }

  /** The position held at a row-major index. */
  function CoordOf(b: Board, i: int): Coord
    requires b.dimensions.x > 0
  {
    Coord(i % b.dimensions.x, i / b.dimensions.x)
  }

  /** Every index of a well-formed grid is the index of exactly one in-bounds position. */
  lemma IndexOnto(b: Board, i: int)
    requires WellFormed(b) && 0 <= i < |b.fields|
    ensures b.dimensions.x > 0
    ensures InBounds(b, CoordOf(b, i)) && GetIndex(b, CoordOf(b, i)) == i
  {
    var w, h := b.dimensions.x, b.dimensions.y;
    if w <= 0 {
      MulLe(w, 0, h);
    }
    var c := CoordOf(b, i);
    assert i == w * c.y + c.x;
    if c.y >= h {
      MulLe(h, c.y, w);
    }
  }

  /** The cell at a position (`Board::get_field`); the source reads it unchecked. */
  function GetField(b: Board, c: Coord): Field
    requires WellFormed(b) && InBounds(b, c)
  {
    b.fields[GetIndex(b, c)]
  }

  /** Overwrite one cell (`Board::set_field`). */
  function SetField(b: Board, c: Coord, v: Field): (r: Board)
    requires WellFormed(b) && InBounds(b, c)
    ensures WellFormed(r) && r.dimensions == b.dimensions
    ensures GetField(r, c) == v
    ensures forall d :: InBounds(b, d) && d != c ==> GetField(r, d) == GetField(b, d)
    ensures multiset(r.fields) == multiset(b.fields) - multiset{GetField(b, c)} + multiset{v}
  {
    var r := Board(b.dimensions, b.fields[GetIndex(b, c) := v]);
    forall d | InBounds(b, d) && d != c
      ensures GetField(r, d) == GetField(b, d)
    {
      IndexInjective(b, c, d);
    }
    r
  }

  /** Board equality of `Board::operator==`: same size and the same first width * height cells. */
  function BoardEqual(a: Board, b: Board): (r: bool)
    requires WellFormed(a) && WellFormed(b)
    ensures r <==> a == b
  {
    var n := a.dimensions.x * a.dimensions.y;
    var r := a.dimensions == b.dimensions && forall i :: 0 <= i < n ==> a.fields[i] == b.fields[i];
    assert r ==> a.fields == b.fields;
    r
  }

  /** Number of cells holding a box, on a goal or not. */
  function BoxCount(b: Board): nat
  {
    multiset(b.fields)[Box] + multiset(b.fields)[BoxOnGoal]
  }

  /** Number of goal cells, covered or not. */
  function GoalCount(b: Board): nat
  {
    multiset(b.fields)[Goal] + multiset(b.fields)[BoxOnGoal]
  }

  /** The position lies strictly inside the outermost ring of cells. */
  predicate Interior(b: Board, c: Coord)
  {
    1 <= c.x < b.dimensions.x - 1 && 1 <= c.y < b.dimensions.y - 1
  }

  /** Every cell on the outermost ring is a wall, as in a wall-framed level. */
  ghost predicate Framed(b: Board)
    requires WellFormed(b)
  {
    forall c :: InBounds(b, c) && !Interior(b, c) ==> GetField(b, c) == Wall
  }

  /** No box, plain or on a goal, lies on the outermost ring. */
  ghost predicate BoxesInterior(b: Board)
    requires WellFormed(b)
  {
    forall c :: InBounds(b, c) && HasBox(GetField(b, c)) ==> Interior(b, c)
  }

  /** No plain box lies on the outermost ring, so its four neighbours are in bounds. */
  ghost predicate PlainBoxesInterior(b: Board)
    requires WellFormed(b)
  {
    forall c :: InBounds(b, c) && GetField(b, c) == Box ==> Interior(b, c)
  }
}
