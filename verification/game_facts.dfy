/**
 * Properties of the puzzle model that relate several operations: safety of
 * the unchecked reads on wall-framed boards, preservation of the frame by
 * successor generation, and the soundness of the corner-deadlock filter.
 */
module PuzzleFacts {
  import opened Grid
  import opened Puzzle

  /** One of the four unit moves. */
  predicate IsDirection(a: Coord)
  {
    a == Left || a == Right || a == Up || a == Down
  }

  /** When no box lies on the outer ring, the read beyond a pushed box stays on the board. */
  lemma InteriorBoxesMakeReadsSafe(g: Game, a: Coord)
    requires WellFormed(g.board) && BoxesInterior(g.board) && IsDirection(a)
    ensures PushReadSafe(g, a)
  {
  }

  /** `take_action` keeps a wall-framed board wall-framed. */
  lemma TakeActionKeepsFrame(g: Game, a: Coord)
    requires WellFormed(g.board) && Framed(g.board) && PushReadSafe(g, a) && IsActionLegal(g, a)
    ensures Framed(TakeAction(g, a).game.board)
  {
    TakeActionKeepsWallsAndGoals(g, a);
  }

  lemma FramedChildSafe(g: Game, a: Coord)
    requires WellFormed(g.board) && Framed(g.board) && IsDirection(a)
    ensures ChildSafe(g, a)
  {
    InteriorBoxesMakeReadsSafe(g, a);
    if IsActionLegal(g, a) {
      TakeActionKeepsFrame(g, a);
    }
  }

  /** The child in one direction, if any, is again a framed board of the same size and contents count. */
  lemma ChildFramed(g: Game, a: Coord)
    requires WellFormed(g.board) && Framed(g.board) && IsDirection(a)
    ensures ChildSafe(g, a)
    ensures forall s :: s in ToSeq(Child(g, a)) ==> StaysFramed(g, s)
  {
    FramedChildSafe(g, a);
    if IsActionLegal(g, a) {
      TakeActionKeepsFrame(g, a);
    }
  }

  /** `s` is well formed and wall-framed, with the size and box and goal counts of `g`. */
  ghost predicate StaysFramed(g: Game, s: Game)
    requires WellFormed(g.board)
  {
    && WellFormed(s.board) && Framed(s.board)
    && s.board.dimensions == g.board.dimensions
    && BoxCount(s.board) == BoxCount(g.board)
    && GoalCount(s.board) == GoalCount(g.board)
  }

  /**
   * On a wall-framed board every read of `get_neighbors` is in bounds, and
   * every successor is again well formed and wall-framed, with the same size
   * and the same number of boxes and of goals.
   */
  lemma NeighborsStayFramed(g: Game)
    requires WellFormed(g.board) && Framed(g.board)
    ensures ExpandSafe(g)
    ensures forall s :: s in Neighbors(g) ==> StaysFramed(g, s)
  {
    ChildFramed(g, Left);
    ChildFramed(g, Right);
    ChildFramed(g, Up);
    ChildFramed(g, Down);
    assert Neighbors(g) == ToSeq(Child(g, Left)) + ToSeq(Child(g, Right)) + ToSeq(Child(g, Up)) + ToSeq(Child(g, Down));
  }

  /** The player stands on the board, on a cell it may occupy. */
  predicate PlayerOk(g: Game)
    requires WellFormed(g.board)
  {
    InBounds(g.board, g.player) && IsFree(GetField(g.board, g.player))
  }

  /** Legal moves keep the player on a free cell. */
  lemma TakeActionKeepsPlayerOk(g: Game, a: Coord)
    requires WellFormed(g.board) && PushReadSafe(g, a) && IsActionLegal(g, a)
    ensures PlayerOk(TakeAction(g, a).game)
  {
    TakeActionKeepsWallsAndGoals(g, a);
    if HasBox(GetField(g.board, Add(g.player, a))) {
      TakeActionMovesBox(g, a);
    }
  }

  /** Of the two cells flanking a cornered box along any axis, at least one is a wall. */
  lemma CornerBlocksPush(b: Board, c: Coord, a: Coord)
    requires WellFormed(b) && InBounds(b, c) && Interior(b, c) && Cornered(b, c) && IsDirection(a)
    ensures GetField(b, Add(c, a)) == Wall || GetField(b, Sub(c, a)) == Wall
  {
  }

  /** No legal unit move pushes a cornered box, nor pushes another box onto it. */
  lemma CornerUntouched(g: Game, a: Coord, c: Coord)
    requires WellFormed(g.board) && PlayerOk(g) && IsDirection(a)
    requires PushReadSafe(g, a) && IsActionLegal(g, a)
    requires InBounds(g.board, c) && Interior(g.board, c) && GetField(g.board, c) == Box
    requires Cornered(g.board, c)
    ensures c != Add(g.player, a)
    ensures HasBox(GetField(g.board, Add(g.player, a))) ==> c != Add(Add(g.player, a), a)
  {
    CornerBlocksPush(g.board, c, a);
    assert g.player == Sub(Add(g.player, a), a);
  }

  /**
   * A plain box lodged in a corner never moves and never reaches a goal: no
   * legal unit move from a state whose player stands on a free cell can push it.
   */
  lemma CornerBoxPersists(g: Game, a: Coord, c: Coord)
    requires WellFormed(g.board) && PlayerOk(g) && IsDirection(a)
    requires PushReadSafe(g, a) && IsActionLegal(g, a)
    requires InBounds(g.board, c) && Interior(g.board, c) && GetField(g.board, c) == Box
    requires Cornered(g.board, c)
    ensures GetField(TakeAction(g, a).game.board, c) == Box
    ensures Cornered(TakeAction(g, a).game.board, c)
  {
    var b, b' := g.board, TakeAction(g, a).game.board;
    CornerUntouched(g, a, c);
    TakeActionFrame(g, a);
    TakeActionKeepsWallsAndGoals(g, a);
    var l, r, u, d := Add(c, Coord(-1, 0)), Add(c, Coord(1, 0)), Add(c, Coord(0, -1)), Add(c, Coord(0, 1));
    assert InBounds(b, l) && InBounds(b, r) && InBounds(b, u) && InBounds(b, d);
  }

  /**
   * The deadlock filter is sound for the moves the search makes: from a state
   * it flags, every legal move leads to a state it flags again, so no goal
   * state is ever reached from it.
   */
  lemma DeadlockIsPermanent(g: Game, a: Coord)
    requires WellFormed(g.board) && PlayerOk(g) && PlainBoxesInterior(g.board) && IsDirection(a)
    requires ChildSafe(g, a) && IsActionLegal(g, a)
    requires IsObviouslyUnsolvable(g)
    ensures IsObviouslyUnsolvable(TakeAction(g, a).game)
    ensures !IsGoal(TakeAction(g, a).game)
  {
    var c := CornerOfFlagged(g);
    CornerBoxPersists(g, a, c);
    FlaggedByCorner(TakeAction(g, a).game, c);
  }

  /** A state the filter flags has a cornered plain box. */
  lemma CornerOfFlagged(g: Game) returns (c: Coord)
    requires WellFormed(g.board) && PlainBoxesInterior(g.board) && IsObviouslyUnsolvable(g)
    ensures InBounds(g.board, c) && Interior(g.board, c) && GetField(g.board, c) == Box && Cornered(g.board, c)
  {
    var w, h := g.board.dimensions.x, g.board.dimensions.y;
    var x, y :| 0 <= x < w && 0 <= y < h && GetField(g.board, Coord(x, y)) == Box && Cornered(g.board, Coord(x, y));
    c := Coord(x, y);
  }

  /** A cornered plain box makes the filter flag the state. */
  lemma FlaggedByCorner(g: Game, c: Coord)
    requires WellFormed(g.board) && PlainBoxesInterior(g.board)
    requires InBounds(g.board, c) && Interior(g.board, c) && GetField(g.board, c) == Box && Cornered(g.board, c)
    ensures IsObviouslyUnsolvable(g)
  {
    assert GetField(g.board, Coord(c.x, c.y)) == Box && Cornered(g.board, Coord(c.x, c.y));
  }

  /** A state the filter flags has no successors: `get_neighbors` drops all of them. */
  lemma DeadlockedHasNoNeighbors(g: Game)
    requires WellFormed(g.board) && PlayerOk(g) && PlainBoxesInterior(g.board) && ExpandSafe(g)
    requires IsObviouslyUnsolvable(g)
    ensures Neighbors(g) == []
  {
    if IsActionLegal(g, Left) { DeadlockIsPermanent(g, Left); }
    if IsActionLegal(g, Right) { DeadlockIsPermanent(g, Right); }
    if IsActionLegal(g, Up) { DeadlockIsPermanent(g, Up); }
    if IsActionLegal(g, Down) { DeadlockIsPermanent(g, Down); }
  }
}
