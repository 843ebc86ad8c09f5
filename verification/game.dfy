/**
 * The puzzle state of game.cpp (`Game`): legality, transition, goal test,
 * corner-deadlock filter, successor generation and value equality.
 */
module Puzzle {
  import opened Wrappers
  import opened Grid

  /** A puzzle state: the player position plus the board. */
  datatype Game = Game(player: Coord, board: Board)

  /** The result of `take_action`: the new state and the move code 0, 1 or 2. */
  datatype Moved = Moved(game: Game, code: int)

  const Left := Coord(-1, 0)
  const Right := Coord(1, 0)
  const Up := Coord(0, -1)
  const Down := Coord(0, 1)

  /** The actions `get_neighbors` tries, in the order it tries them. */
  const Directions: seq<Coord> := [Left, Right, Up, Down]

  /** Position of a delta in `Directions`, or 4 when it is not one of them. */
  function Rank(a: Coord): nat
  {
    if a == Left then 0 else if a == Right then 1 else if a == Up then 2 else if a == Down then 3 else 4
  }

  function Sub(a: Coord, b: Coord): Coord
  {
    Coord(a.x - b.x, a.y - b.y)
  }

  /**
   * The unchecked read of `is_action_legal` stays in bounds: when the
   * destination holds a box, the cell beyond it is on the board.
   */
  predicate PushReadSafe(g: Game, a: Coord)
    requires WellFormed(g.board)
  {
    var dest := Add(g.player, a);
    InBounds(g.board, dest) && HasBox(GetField(g.board, dest)) ==> InBounds(g.board, Add(dest, a))
  }

  /** Whether the player may take the action (`Game::is_action_legal`). */
  function IsActionLegal(g: Game, a: Coord): (r: bool)
    requires WellFormed(g.board) && PushReadSafe(g, a)
    ensures !InBounds(g.board, Add(g.player, a)) ==> !r
    ensures InBounds(g.board, Add(g.player, a)) && IsFree(GetField(g.board, Add(g.player, a))) ==> r
    ensures r ==> InBounds(g.board, Add(g.player, a)) && GetField(g.board, Add(g.player, a)) != Wall
    ensures r && HasBox(GetField(g.board, Add(g.player, a))) ==>
      InBounds(g.board, Add(Add(g.player, a), a)) && IsFree(GetField(g.board, Add(Add(g.player, a), a)))
    ensures InBounds(g.board, Add(g.player, a)) && HasBox(GetField(g.board, Add(g.player, a))) ==>
      (r <==> IsFree(GetField(g.board, Add(Add(g.player, a), a))))
  {
    var dest := Add(g.player, a);
    if !InBounds(g.board, dest) then false
    else
      var neighbor := GetField(g.board, dest);
      if IsFree(neighbor) then true
      else if HasBox(neighbor) then IsFree(GetField(g.board, Add(dest, a)))
      else false
  }

  /** Remove the box from `c`, restoring the goal or empty cell underneath. */
  function LiftBox(b: Board, c: Coord): (r: Board)
    requires WellFormed(b) && InBounds(b, c) && HasBox(GetField(b, c))
    ensures WellFormed(r) && r.dimensions == b.dimensions
    ensures IsFree(GetField(r, c)) && (IsGoalCell(GetField(r, c)) <==> IsGoalCell(GetField(b, c)))
    ensures forall d :: InBounds(b, d) && d != c ==> GetField(r, d) == GetField(b, d)
    ensures BoxCount(r) + 1 == BoxCount(b) && GoalCount(r) == GoalCount(b)
  {
    if GetField(b, c) == Box then SetField(b, c, Empty) else SetField(b, c, Goal)
  }

  /** Place a box on the free cell `c`, as a box on a goal when `c` is a goal. */
  function DropBox(b: Board, c: Coord): (r: Board)
    requires WellFormed(b) && InBounds(b, c) && IsFree(GetField(b, c))
    ensures WellFormed(r) && r.dimensions == b.dimensions
    ensures HasBox(GetField(r, c)) && (IsGoalCell(GetField(r, c)) <==> IsGoalCell(GetField(b, c)))
    ensures forall d :: InBounds(b, d) && d != c ==> GetField(r, d) == GetField(b, d)
    ensures BoxCount(r) == BoxCount(b) + 1 && GoalCount(r) == GoalCount(b)
  {
    if GetField(b, c) == Goal then SetField(b, c, BoxOnGoal) else SetField(b, c, Box)
  }

  /**
   * Apply a legal action (`Game::take_action`): move the player and, when
   * the destination holds a box, push it one cell further.
   */
  function TakeAction(g: Game, a: Coord): (r: Moved)
    requires WellFormed(g.board) && PushReadSafe(g, a) && IsActionLegal(g, a)
    ensures r.game.player == Add(g.player, a)
    ensures WellFormed(r.game.board) && r.game.board.dimensions == g.board.dimensions
    // Without a push the board is untouched.
    ensures !HasBox(GetField(g.board, Add(g.player, a))) ==> r.game.board == g.board
    // Move codes.
    ensures r.code == 0 <==> !HasBox(GetField(g.board, Add(g.player, a)))
    ensures r.code == 1 <==> HasBox(GetField(g.board, Add(g.player, a))) && GetField(g.board, Add(Add(g.player, a), a)) == Empty
    ensures r.code == 2 <==> HasBox(GetField(g.board, Add(g.player, a))) && GetField(g.board, Add(Add(g.player, a), a)) == Goal
    // Conservation.
    ensures BoxCount(r.game.board) == BoxCount(g.board)
    ensures GoalCount(r.game.board) == GoalCount(g.board)
  {
    var dest := Add(g.player, a);
    var field := GetField(g.board, dest);
    if HasBox(field) then
      var b1 := LiftBox(g.board, dest);
      var beyond := Add(dest, a);
      var nf := GetField(b1, beyond);
      PushFacts(g.board, b1, dest, beyond);
      if nf == Goal then Moved(Game(dest, DropBox(b1, beyond)), 2)
      else if nf == Empty then Moved(Game(dest, DropBox(b1, beyond)), 1)
      else assert false; Moved(Game(dest, b1), 0)
    else
      Moved(Game(dest, g.board), 0)
  }

  /** Lifting a box from `dest` leaves the free cell beyond it untouched. */
  lemma PushFacts(b: Board, b1: Board, dest: Coord, beyond: Coord)
    requires WellFormed(b) && InBounds(b, dest) && HasBox(GetField(b, dest))
    requires InBounds(b, beyond) && IsFree(GetField(b, beyond))
    requires b1 == LiftBox(b, dest)
    ensures beyond != dest && GetField(b1, beyond) == GetField(b, beyond)
  {
  }

  /** The board after the push of a box from `dest` in direction `a`. */
  lemma PushedBoard(g: Game, a: Coord)
    requires WellFormed(g.board) && PushReadSafe(g, a) && IsActionLegal(g, a)
    requires HasBox(GetField(g.board, Add(g.player, a)))
    ensures TakeAction(g, a).game.board == DropBox(LiftBox(g.board, Add(g.player, a)), Add(Add(g.player, a), a))
  {
  }

  /** `take_action` changes no cell other than the destination and the cell beyond it. */
  lemma TakeActionFrame(g: Game, a: Coord)
    requires WellFormed(g.board) && PushReadSafe(g, a) && IsActionLegal(g, a)
    ensures forall c :: InBounds(g.board, c) && c != Add(g.player, a) && c != Add(Add(g.player, a), a) ==>
      GetField(TakeAction(g, a).game.board, c) == GetField(g.board, c)
  {
    if HasBox(GetField(g.board, Add(g.player, a))) {
      PushedBoard(g, a);
    }
  }

  /** `take_action` keeps every wall and every goal marking where it was. */
  lemma TakeActionKeepsWallsAndGoals(g: Game, a: Coord)
    requires WellFormed(g.board) && PushReadSafe(g, a) && IsActionLegal(g, a)
    ensures forall c :: InBounds(g.board, c) ==>
      (GetField(TakeAction(g, a).game.board, c) == Wall <==> GetField(g.board, c) == Wall)
    ensures forall c :: InBounds(g.board, c) ==>
      (IsGoalCell(GetField(TakeAction(g, a).game.board, c)) <==> IsGoalCell(GetField(g.board, c)))
  {
    forall c | InBounds(g.board, c)
      ensures GetField(TakeAction(g, a).game.board, c) == Wall <==> GetField(g.board, c) == Wall
      ensures IsGoalCell(GetField(TakeAction(g, a).game.board, c)) <==> IsGoalCell(GetField(g.board, c))
    {
      if HasBox(GetField(g.board, Add(g.player, a))) {
        PushKeepsCell(g, a, c);
      }
    }
  }

  /** One cell of a push: its wall and goal marking survive. */
  lemma PushKeepsCell(g: Game, a: Coord, c: Coord)
    requires WellFormed(g.board) && PushReadSafe(g, a) && IsActionLegal(g, a)
    requires HasBox(GetField(g.board, Add(g.player, a))) && InBounds(g.board, c)
    ensures GetField(TakeAction(g, a).game.board, c) == Wall <==> GetField(g.board, c) == Wall
    ensures IsGoalCell(GetField(TakeAction(g, a).game.board, c)) <==> IsGoalCell(GetField(g.board, c))
  {
    PushedBoard(g, a);
    MoveBoxKeepsCell(g.board, Add(g.player, a), Add(Add(g.player, a), a), c);
  }

  /** Moving a box from `from` to the free cell `to` keeps walls and goal markings. */
  lemma MoveBoxKeepsCell(b: Board, from: Coord, to: Coord, c: Coord)
    requires WellFormed(b) && InBounds(b, from) && InBounds(b, to) && InBounds(b, c)
    requires HasBox(GetField(b, from)) && IsFree(GetField(b, to))
    ensures var b' := DropBox(LiftBox(b, from), to);
      && (GetField(b', c) == Wall <==> GetField(b, c) == Wall)
      && (IsGoalCell(GetField(b', c)) <==> IsGoalCell(GetField(b, c)))
  {
    var b1 := LiftBox(b, from);
    assert GetField(b1, to) == GetField(b, to);
    var b2 := DropBox(b1, to);
    if c == to {
      assert GetField(b1, c) == GetField(b, c);
    } else if c == from {
      assert GetField(b2, c) == GetField(b1, c);
    } else {
      assert GetField(b2, c) == GetField(b1, c) == GetField(b, c);
    }
  }

  /** A pushed box leaves the destination and lands on the cell beyond it. */
  lemma TakeActionMovesBox(g: Game, a: Coord)
    requires WellFormed(g.board) && PushReadSafe(g, a) && IsActionLegal(g, a)
    requires HasBox(GetField(g.board, Add(g.player, a)))
    ensures !HasBox(GetField(TakeAction(g, a).game.board, Add(g.player, a)))
    ensures HasBox(GetField(TakeAction(g, a).game.board, Add(Add(g.player, a), a)))
  {
    PushedBoard(g, a);
  }

  /** A cell that may remain in a goal state. */
  predicate Settled(f: Field)
  {
    f == Empty || f == Wall || f == BoxOnGoal
  }

  /**
   * The goal test of `Game::is_goal`: every cell is empty, a wall or a box on
   * a goal. A plain box or an uncovered goal cell makes it false.
   */
  function IsGoal(g: Game): (r: bool)
    requires WellFormed(g.board)
    ensures r <==> multiset(g.board.fields)[Box] == 0 && multiset(g.board.fields)[Goal] == 0
  {
    var w, h := g.board.dimensions.x, g.board.dimensions.y;
    var r := forall x, y :: 0 <= x < w && 0 <= y < h ==> Settled(GetField(g.board, Coord(x, y)));
    IsGoalByCells(g.board, r);
    r
  }

  lemma IsGoalByCells(b: Board, r: bool)
    requires WellFormed(b)
    requires r == forall x, y :: 0 <= x < b.dimensions.x && 0 <= y < b.dimensions.y ==> Settled(GetField(b, Coord(x, y)))
    ensures r <==> multiset(b.fields)[Box] == 0 && multiset(b.fields)[Goal] == 0
  {
    if r {
      forall i | 0 <= i < |b.fields|
        ensures Settled(b.fields[i])
      {
        IndexOnto(b, i);
        var c := CoordOf(b, i);
        assert Settled(GetField(b, Coord(c.x, c.y)));
      }
      assert Box !in multiset(b.fields);
      assert Goal !in multiset(b.fields);
    } else {
      var x, y :| 0 <= x < b.dimensions.x && 0 <= y < b.dimensions.y && !Settled(GetField(b, Coord(x, y)));
      assert b.fields[GetIndex(b, Coord(x, y))] in multiset(b.fields);
    }
  }

  /** A box at `c` is lodged against a wall horizontally and a wall vertically. */
  predicate Cornered(b: Board, c: Coord)
    requires WellFormed(b) && InBounds(b, c) && Interior(b, c)
  {
    var left := GetField(b, Add(c, Coord(-1, 0)));
    var right := GetField(b, Add(c, Coord(1, 0)));
    var top := GetField(b, Add(c, Coord(0, -1)));
    var bottom := GetField(b, Add(c, Coord(0, 1)));
    (left == Wall || right == Wall) && (top == Wall || bottom == Wall)
  }

  /** The cell `c` holds a plain box lodged in a corner of walls. */
  predicate Lodged(b: Board, c: Coord)
    requires WellFormed(b)
  {
    InBounds(b, c) && GetField(b, c) == Box && Interior(b, c) && Cornered(b, c)
  }

  /**
   * The corner-deadlock filter of `Game::is_obviously_unsolvable`: some plain
   * box (never a box on a goal) has a wall beside it and a wall above or below.
   */
  function IsObviouslyUnsolvable(g: Game): bool
    requires WellFormed(g.board) && PlainBoxesInterior(g.board)
  {
    var w, h := g.board.dimensions.x, g.board.dimensions.y;
    exists x, y :: 0 <= x < w && 0 <= y < h && GetField(g.board, Coord(x, y)) == Box && Cornered(g.board, Coord(x, y))
  }

  /**
   * The loop of `Game::is_obviously_unsolvable`: columns outer, rows inner,
   * skipping every cell but a plain box, reading its four neighbours and
   * stopping at the first box lodged in a corner of walls.
   */
  method IsObviouslyUnsolvableScan(g: Game) returns (r: bool)
    requires WellFormed(g.board) && PlainBoxesInterior(g.board)
    ensures r == IsObviouslyUnsolvable(g)
  {
    var w, h := g.board.dimensions.x, g.board.dimensions.y;
    var x := 0;
    while x < w
      invariant 0 <= x <= w
      invariant forall x', y' :: 0 <= x' < x && 0 <= y' < h ==>
        !Lodged(g.board, Coord(x', y'))
    {
      var y := 0;
      while y < h
        invariant 0 <= y <= h
        invariant forall x', y' :: 0 <= x' < x && 0 <= y' < h ==>
          !Lodged(g.board, Coord(x', y'))
        invariant forall y' :: 0 <= y' < y ==>
          !Lodged(g.board, Coord(x, y'))
      {
        var lodged := LodgedBox(g, Coord(x, y));
        if lodged {
          return true;
        }
        y := y + 1;
      }
      x := x + 1;
    }
    return false;
  }

  /** One iteration of the scan: skip all but a plain box, then test its four neighbours. */
  method LodgedBox(g: Game, pos: Coord) returns (r: bool)
    requires WellFormed(g.board) && PlainBoxesInterior(g.board) && InBounds(g.board, pos)
    ensures r <==> Lodged(g.board, pos)
  {
    var field := GetField(g.board, pos);
    if field != Box {
      return false;
    }
    var left := GetField(g.board, Add(pos, Coord(-1, 0)));
    var right := GetField(g.board, Add(pos, Coord(1, 0)));
    var top := GetField(g.board, Add(pos, Coord(0, -1)));
    var bottom := GetField(g.board, Add(pos, Coord(0, 1)));
    r := (left == Wall && top == Wall) || (left == Wall && bottom == Wall) ||
         (right == Wall && top == Wall) || (right == Wall && bottom == Wall);
  }

  /** The child reached by one action can be checked by the deadlock filter without unchecked reads. */
  ghost predicate ChildSafe(g: Game, a: Coord)
    requires WellFormed(g.board)
  {
    PushReadSafe(g, a) && (IsActionLegal(g, a) ==> PlainBoxesInterior(TakeAction(g, a).game.board))
  }

  /** Every read `get_neighbors` performs stays in bounds. */
  ghost predicate ExpandSafe(g: Game)
    requires WellFormed(g.board)
  {
    ChildSafe(g, Left) && ChildSafe(g, Right) && ChildSafe(g, Up) && ChildSafe(g, Down)
  }

  /** The state reached by one action when it is legal and not obviously unsolvable. */
  function Child(g: Game, a: Coord): Option<Game>
    requires WellFormed(g.board) && ChildSafe(g, a)
  {
    if !IsActionLegal(g, a) then None
    else
      var c := TakeAction(g, a).game;
      if IsObviouslyUnsolvable(c) then None else Some(c)
  }

  /** The successor list contributed by one iteration: empty or one state. */
  function ToSeq(o: Option<Game>): seq<Game>
  {
    if o.Some? then [o.value] else []
  }

  /** `s` is the result of the legal action `a` and survives the deadlock filter. */
  predicate Yields(g: Game, a: Coord, s: Game)
    requires WellFormed(g.board) && ChildSafe(g, a)
  {
    IsActionLegal(g, a) && s == TakeAction(g, a).game && !IsObviouslyUnsolvable(s)
  }

  /** The direction rank of a successor, read off its player displacement. */
  function RankOf(g: Game, s: Game): nat
  {
    Rank(Sub(s.player, g.player))
  }

  /** The successors appear in strictly increasing direction rank. */
  predicate InDirectionOrder(g: Game, r: seq<Game>)
  {
    forall i, j :: 0 <= i < j < |r| ==> RankOf(g, r[i]) < RankOf(g, r[j])
  }

  /** One iteration of `get_neighbors` contributes at most one state: the child, tagged by its direction. */
  lemma ChildContribution(g: Game, a: Coord)
    requires WellFormed(g.board) && ChildSafe(g, a)
    ensures |ToSeq(Child(g, a))| <= 1
    ensures forall s :: s in ToSeq(Child(g, a)) <==> Yields(g, a, s)
    ensures forall s :: s in ToSeq(Child(g, a)) ==> RankOf(g, s) == Rank(a)
    ensures InDirectionOrder(g, ToSeq(Child(g, a)))
  {
  }

  lemma OrderedConcat(g: Game, p: seq<Game>, q: seq<Game>, m: nat, hi: nat)
    requires m <= hi
    requires InDirectionOrder(g, p) && InDirectionOrder(g, q)
    requires forall s :: s in p ==> RankOf(g, s) < m
    requires forall s :: s in q ==> m <= RankOf(g, s) < hi
    ensures InDirectionOrder(g, p + q)
    ensures forall s :: s in p + q ==> RankOf(g, s) < hi
  {
    var r := p + q;
    forall i, j | 0 <= i < j < |r|
      ensures RankOf(g, r[i]) < RankOf(g, r[j])
    {
      if j < |p| {
        assert r[i] == p[i] && r[j] == p[j];
      } else if i >= |p| {
        assert r[i] == q[i - |p|] && r[j] == q[j - |p|];
      } else {
        assert r[i] == p[i] && r[j] == q[j - |p|];
        assert p[i] in p && q[j - |p|] in q;
      }
    }
  }

  /**
   * The successors of `Game::get_neighbors`: left, right, up, down, keeping
   * the legal actions whose result is not obviously unsolvable.
   */
  function Neighbors(g: Game): (r: seq<Game>)
    requires WellFormed(g.board) && ExpandSafe(g)
    ensures |r| <= 4
    ensures forall s :: s in r <==> Yields(g, Left, s) || Yields(g, Right, s) || Yields(g, Up, s) || Yields(g, Down, s)
    ensures InDirectionOrder(g, r)
  {
    var l, rt, u, d := ToSeq(Child(g, Left)), ToSeq(Child(g, Right)), ToSeq(Child(g, Up)), ToSeq(Child(g, Down));
    ChildContribution(g, Left);
    ChildContribution(g, Right);
    ChildContribution(g, Up);
    ChildContribution(g, Down);
    OrderedConcat(g, l, rt, 1, 2);
    OrderedConcat(g, l + rt, u, 2, 3);
    OrderedConcat(g, l + rt + u, d, 3, 4);
    l + rt + u + d
  }

  /** State equality of `Game::operator==`: same player and equal boards. */
  function GameEqual(a: Game, b: Game): (r: bool)
    requires WellFormed(a.board) && WellFormed(b.board)
    ensures r <==> a == b
  {
    a.player == b.player && BoardEqual(a.board, b.board)
  }

  /** Value-equal states hash alike, whatever hash function is used (`Game::hash`). */
  lemma HashRespectsEquality(a: Game, b: Game, hash: Game -> int)
    requires WellFormed(a.board) && WellFormed(b.board) && GameEqual(a, b)
    ensures hash(a) == hash(b)
  {
  }
}
