/**
 * The estimate of mincostheuristic.cpp (`MinCostHeuristic::operator()`):
 * zero on goal states, otherwise the distance from the player to the nearest
 * plain box plus the shortest distance from a plain box to an uncovered goal.
 */
module MinCost {
  import opened Grid
  import opened Puzzle
  import opened Costs

  function Abs(n: int): (r: nat)
    ensures r == n || r == -n
  {
    if n < 0 then -n else n
  }

  /** The Manhattan distance `|x0 - x1| + |y0 - y1|`. */
  function Manhattan(a: Coord, b: Coord): (r: nat)
    ensures r == 0 <==> a == b
  {
    Abs(a.x - b.x) + Abs(a.y - b.y)
  }

  /** The least element of a non-empty set of distances. */
  ghost function MinOf(s: set<nat>): (m: nat)
    requires s != {}
    ensures m in s
    ensures forall k :: k in s ==> m <= k
    decreases |s|
  {
    var x :| x in s;
    if s == {x} then x
    else
      var m := MinOf(s - {x});
      assert forall k :: k in s ==> k == x || k in s - {x};
      if x < m then x else m
  }

  /** The minimum of a set of distances; infinity when the set is empty. */
  ghost function Least(s: set<nat>): (r: Cost)
    ensures r.Inf? <==> s == {}
    ensures r.Fin? ==> r.n in s && forall k :: k in s ==> r.n <= k
  {
    if s == {} then Inf else Fin(MinOf(s))
  }

  /** The cells of the board, as the nested loops over x and y visit them. */
  function Cells(b: Board): (r: set<Coord>)
    ensures forall c :: c in r <==> InBounds(b, c)
  {
    set x, y | 0 <= x < b.dimensions.x && 0 <= y < b.dimensions.y :: Coord(x, y)
  }

  /** Box cell `b` is measured against the player: a plain box, the player on the board elsewhere. */
  predicate PlayerBoxPair(g: Game, b: Coord)
    requires WellFormed(g.board)
  {
    InBounds(g.board, b) && GetField(g.board, b) == Box && InBounds(g.board, g.player) && b != g.player
  }

  /** Box cell `b` is measured against cell `t`: a plain box and an uncovered goal. */
  predicate BoxGoalPair(g: Game, b: Coord, t: Coord)
    requires WellFormed(g.board)
  {
    InBounds(g.board, b) && GetField(g.board, b) == Box && InBounds(g.board, t) && GetField(g.board, t) == Goal
  }

  /** The distances the `player_to_box` minimum ranges over. */
  ghost function PlayerBoxDistances(g: Game): (r: set<nat>)
    requires WellFormed(g.board)
    ensures forall b :: PlayerBoxPair(g, b) ==> Manhattan(b, g.player) in r
    ensures forall d :: d in r ==> exists b :: PlayerBoxPair(g, b) && Manhattan(b, g.player) == d
  {
    var cells := Cells(g.board);
    assert forall b :: PlayerBoxPair(g, b) ==> b in cells;
    set b | b in cells && PlayerBoxPair(g, b) :: Manhattan(b, g.player)
  }

  /** The distances the `box_to_goal` minimum ranges over. */
  ghost function BoxGoalDistances(g: Game): (r: set<nat>)
    requires WellFormed(g.board)
    ensures forall b, t :: BoxGoalPair(g, b, t) ==> Manhattan(b, t) in r
    ensures forall d :: d in r ==> exists b, t :: BoxGoalPair(g, b, t) && Manhattan(b, t) == d
  {
    var cells := Cells(g.board);
    assert forall b, t :: BoxGoalPair(g, b, t) ==> b in cells && t in cells;
    set b, t | b in cells && t in cells && BoxGoalPair(g, b, t) :: Manhattan(b, t)
  }

  /** The `player_to_box` term. */
  ghost function PlayerToBox(g: Game): (r: Cost)
    requires WellFormed(g.board)
    ensures r.Fin? <==> exists b :: PlayerBoxPair(g, b)
    ensures r.Fin? ==> exists b :: PlayerBoxPair(g, b) && Manhattan(b, g.player) == r.n
    ensures forall b :: PlayerBoxPair(g, b) ==> Le(r, Fin(Manhattan(b, g.player)))
  {
    Least(PlayerBoxDistances(g))
  }

  /** The `box_to_goal` term. */
  ghost function BoxToGoal(g: Game): (r: Cost)
    requires WellFormed(g.board)
    ensures r.Fin? <==> exists b, t :: BoxGoalPair(g, b, t)
    ensures r.Fin? ==> exists b, t :: BoxGoalPair(g, b, t) && Manhattan(b, t) == r.n
    ensures forall b, t :: BoxGoalPair(g, b, t) ==> Le(r, Fin(Manhattan(b, t)))
  {
    Least(BoxGoalDistances(g))
  }

  /**
   * The estimate: 0 on a goal state; otherwise finite exactly when both terms
   * have a candidate, and then at least 2, since no term pairs a cell with itself.
   */
  ghost function Heuristic(g: Game): (r: Cost)
    requires WellFormed(g.board)
    ensures IsGoal(g) ==> r == Fin(0)
    ensures !IsGoal(g) ==> (r.Fin? <==> (exists b :: PlayerBoxPair(g, b)) && (exists b, t :: BoxGoalPair(g, b, t)))
    ensures !IsGoal(g) && r.Fin? ==> r.n >= 2
  {
    if IsGoal(g) then Fin(0) else Plus(PlayerToBox(g), BoxToGoal(g))
  }

  /**
   * Off the goal states the estimate is the least sum of a player-to-box
   * distance and a box-to-goal distance: some pair of candidates reaches it,
   * and no pair goes below it.
   */
  lemma HeuristicIsLeastSum(g: Game)
    requires WellFormed(g.board) && !IsGoal(g)
    ensures Heuristic(g).Fin? ==>
      (exists b, b', t :: PlayerBoxPair(g, b) && BoxGoalPair(g, b', t) && Heuristic(g).n == Manhattan(b, g.player) + Manhattan(b', t))
    ensures forall b, b', t :: PlayerBoxPair(g, b) && BoxGoalPair(g, b', t) ==>
      Le(Heuristic(g), Fin(Manhattan(b, g.player) + Manhattan(b', t)))
  {
    var p, q := PlayerToBox(g), BoxToGoal(g);
    assert Heuristic(g) == Plus(p, q);
    if p.Fin? && q.Fin? {
      var b :| PlayerBoxPair(g, b) && Manhattan(b, g.player) == p.n;
      var b', t :| BoxGoalPair(g, b', t) && Manhattan(b', t) == q.n;
      assert PlayerBoxPair(g, b) && BoxGoalPair(g, b', t) && Heuristic(g).n == Manhattan(b, g.player) + Manhattan(b', t);
    }
  }

  /** `std::min` on costs: the second argument when it is strictly smaller, else the first. */
  function Min(a: Cost, b: Cost): (r: Cost)
    ensures Le(r, a) && Le(r, b)
    ensures r == a || r == b
  {
    if Lt(b, a) then b else a
  }

  /** Cell `c` comes before the cursor `p` in the x-major order of the nested loops. */
  predicate Before(c: Coord, p: Coord)
  {
    c.x < p.x || (c.x == p.x && c.y < p.y)
  }

  /**
   * The pair (outer cell `b`, inner cell `t`) has been visited when the outer
   * loop stands at `p` and the inner loop at `q`.
   */
  predicate Seen(b: Coord, t: Coord, p: Coord, q: Coord)
  {
    Before(b, p) || (b == p && Before(t, q))
  }

  /** `acc` is the least player-to-box distance over the visited pairs (infinity if none). */
  ghost predicate PlayerTermSoFar(g: Game, acc: Cost, p: Coord, q: Coord)
    requires WellFormed(g.board)
  {
    && (forall b :: PlayerBoxPair(g, b) && Seen(b, g.player, p, q) ==> Le(acc, Fin(Manhattan(b, g.player))))
    && (acc.Fin? ==> exists b :: PlayerBoxPair(g, b) && Seen(b, g.player, p, q) && Manhattan(b, g.player) == acc.n)
  }

  /** `acc` is the least box-to-goal distance over the visited pairs (infinity if none). */
  ghost predicate GoalTermSoFar(g: Game, acc: Cost, p: Coord, q: Coord)
    requires WellFormed(g.board)
  {
    && (forall b, t :: BoxGoalPair(g, b, t) && Seen(b, t, p, q) ==> Le(acc, Fin(Manhattan(b, t))))
    && (acc.Fin? ==> exists b, t :: BoxGoalPair(g, b, t) && Seen(b, t, p, q) && Manhattan(b, t) == acc.n)
  }

  /** Two cursor positions that have visited the same in-bounds pairs. */
  ghost predicate SameSeen(g: Game, p: Coord, q: Coord, p': Coord, q': Coord)
  {
    forall b, t :: InBounds(g.board, b) && InBounds(g.board, t) ==> (Seen(b, t, p, q) <==> Seen(b, t, p', q'))
  }

  lemma SoFarTransfers(g: Game, acc1: Cost, acc2: Cost, p: Coord, q: Coord, p': Coord, q': Coord)
    requires WellFormed(g.board) && SameSeen(g, p, q, p', q')
    requires PlayerTermSoFar(g, acc1, p, q) && GoalTermSoFar(g, acc2, p, q)
    ensures PlayerTermSoFar(g, acc1, p', q') && GoalTermSoFar(g, acc2, p', q')
  {
    if acc1.Fin? {
      var b :| PlayerBoxPair(g, b) && Seen(b, g.player, p, q) && Manhattan(b, g.player) == acc1.n;
      assert Seen(b, g.player, p', q');
    }
    if acc2.Fin? {
      var b, t :| BoxGoalPair(g, b, t) && Seen(b, t, p, q) && Manhattan(b, t) == acc2.n;
      assert Seen(b, t, p', q');
    }
  }

  /** The end of a column of the inner loops is the start of the next one. */
  lemma InnerColumnDone(g: Game, p: Coord, x: int)
    requires WellFormed(g.board)
    ensures SameSeen(g, p, Coord(x, g.board.dimensions.y), p, Coord(x + 1, 0))
  {
  }

  /** The end of the inner loops for `p` is the start of the outer cell after `p`. */
  lemma InnerLoopsDone(g: Game, p: Coord)
    requires WellFormed(g.board) && InBounds(g.board, p)
    ensures SameSeen(g, p, Coord(g.board.dimensions.x, 0), Coord(p.x, p.y + 1), Coord(0, 0))
  {
  }

  /** The end of a column of the outer loops is the start of the next one. */
  lemma OuterColumnDone(g: Game, x: int)
    requires WellFormed(g.board)
    ensures SameSeen(g, Coord(x, g.board.dimensions.y), Coord(0, 0), Coord(x + 1, 0), Coord(0, 0))
  {
  }

  /** The accumulators at the end of an inner column are those at the start of the next. */
  lemma InnerColumnEnds(g: Game, p: Coord, x: int, acc1: Cost, acc2: Cost)
    requires WellFormed(g.board)
    requires PlayerTermSoFar(g, acc1, p, Coord(x, g.board.dimensions.y)) && GoalTermSoFar(g, acc2, p, Coord(x, g.board.dimensions.y))
    ensures PlayerTermSoFar(g, acc1, p, Coord(x + 1, 0)) && GoalTermSoFar(g, acc2, p, Coord(x + 1, 0))
  {
    InnerColumnDone(g, p, x);
    SoFarTransfers(g, acc1, acc2, p, Coord(x, g.board.dimensions.y), p, Coord(x + 1, 0));
  }

  /** The accumulators at the end of the inner loops for `p` are those at the start of the next outer cell. */
  lemma InnerLoopsEnd(g: Game, p: Coord, acc1: Cost, acc2: Cost)
    requires WellFormed(g.board) && InBounds(g.board, p)
    requires PlayerTermSoFar(g, acc1, p, Coord(g.board.dimensions.x, 0)) && GoalTermSoFar(g, acc2, p, Coord(g.board.dimensions.x, 0))
    ensures PlayerTermSoFar(g, acc1, Coord(p.x, p.y + 1), Coord(0, 0)) && GoalTermSoFar(g, acc2, Coord(p.x, p.y + 1), Coord(0, 0))
  {
    InnerLoopsDone(g, p);
    SoFarTransfers(g, acc1, acc2, p, Coord(g.board.dimensions.x, 0), Coord(p.x, p.y + 1), Coord(0, 0));
  }

  /** The accumulators at the end of an outer column are those at the start of the next. */
  lemma OuterColumnEnds(g: Game, x: int, acc1: Cost, acc2: Cost)
    requires WellFormed(g.board)
    requires PlayerTermSoFar(g, acc1, Coord(x, g.board.dimensions.y), Coord(0, 0)) && GoalTermSoFar(g, acc2, Coord(x, g.board.dimensions.y), Coord(0, 0))
    ensures PlayerTermSoFar(g, acc1, Coord(x + 1, 0), Coord(0, 0)) && GoalTermSoFar(g, acc2, Coord(x + 1, 0), Coord(0, 0))
  {
    OuterColumnDone(g, x);
    SoFarTransfers(g, acc1, acc2, Coord(x, g.board.dimensions.y), Coord(0, 0), Coord(x + 1, 0), Coord(0, 0));
  }

  /** Once the loops are done, every in-bounds pair has been visited. */
  lemma AllSeen(g: Game)
    requires WellFormed(g.board)
    ensures forall b, t :: InBounds(g.board, b) && InBounds(g.board, t) ==> Seen(b, t, Coord(g.board.dimensions.x, 0), Coord(0, 0))
  {
  }

  /**
   * The two inner loops (mincostheuristic.cpp:25-41) for the plain box at
   * `p`: every other cell is measured against it, updating the player term
   * at the player's cell and the goal term at each uncovered goal.
   */
  method ScanPartners(g: Game, p: Coord, ptb: Cost, btg: Cost) returns (ptb': Cost, btg': Cost)
    requires WellFormed(g.board) && InBounds(g.board, p) && GetField(g.board, p) == Box
    requires PlayerTermSoFar(g, ptb, p, Coord(0, 0)) && GoalTermSoFar(g, btg, p, Coord(0, 0))
    ensures PlayerTermSoFar(g, ptb', Coord(p.x, p.y + 1), Coord(0, 0))
    ensures GoalTermSoFar(g, btg', Coord(p.x, p.y + 1), Coord(0, 0))
  {
    var w, h := g.board.dimensions.x, g.board.dimensions.y;
    ptb', btg' := ptb, btg;
    var x1 := 0;
    while x1 < w
      invariant 0 <= x1 <= w
      invariant PlayerTermSoFar(g, ptb', p, Coord(x1, 0)) && GoalTermSoFar(g, btg', p, Coord(x1, 0))
    {
      var y1 := 0;
      while y1 < h
        invariant 0 <= y1 <= h
        invariant PlayerTermSoFar(g, ptb', p, Coord(x1, y1)) && GoalTermSoFar(g, btg', p, Coord(x1, y1))
      {
        ptb', btg' := Measure(g, p, Coord(x1, y1), ptb', btg');
        y1 := y1 + 1;
      }
      InnerColumnEnds(g, p, x1, ptb', btg');
      x1 := x1 + 1;
    }
    InnerLoopsEnd(g, p, ptb', btg');
  }

  /** The innermost body (mincostheuristic.cpp:27-39) for the pair (`p`, `q`). */
  method Measure(g: Game, p: Coord, q: Coord, ptb: Cost, btg: Cost) returns (ptb': Cost, btg': Cost)
    requires WellFormed(g.board) && InBounds(g.board, p) && GetField(g.board, p) == Box && InBounds(g.board, q)
    requires PlayerTermSoFar(g, ptb, p, q) && GoalTermSoFar(g, btg, p, q)
    ensures PlayerTermSoFar(g, ptb', p, Coord(q.x, q.y + 1)) && GoalTermSoFar(g, btg', p, Coord(q.x, q.y + 1))
  {
    PlayerStep(g, p, q, ptb);
    GoalStep(g, p, q, btg);
    ptb', btg' := ptb, btg;
    if p == q {
      return;
    }
    var d := Manhattan(p, q);
    if q == g.player {
      ptb' := Min(ptb', Fin(d));
    }
    if GetField(g.board, q) == Goal {
      btg' := Min(btg', Fin(d));
    }
  }

  /** Visiting the pair (`p`, `q`) updates the player term exactly when `q` is the player's cell. */
  lemma PlayerStep(g: Game, p: Coord, q: Coord, acc: Cost)
    requires WellFormed(g.board) && InBounds(g.board, p) && GetField(g.board, p) == Box && InBounds(g.board, q)
    requires PlayerTermSoFar(g, acc, p, q)
    ensures PlayerTermSoFar(g, if p != q && q == g.player then Min(acc, Fin(Manhattan(p, q))) else acc, p, Coord(q.x, q.y + 1))
  {
    var next := Coord(q.x, q.y + 1);
    var acc' := if p != q && q == g.player then Min(acc, Fin(Manhattan(p, q))) else acc;
    forall b | PlayerBoxPair(g, b) && Seen(b, g.player, p, next)
      ensures Le(acc', Fin(Manhattan(b, g.player)))
    {
      if !Seen(b, g.player, p, q) {
        assert b == p && g.player == q;
      }
    }
    if acc'.Fin? && acc' != acc {
      assert PlayerBoxPair(g, p) && Seen(p, g.player, p, next);
    }
    if acc'.Fin? && acc' == acc {
      var b :| PlayerBoxPair(g, b) && Seen(b, g.player, p, q) && Manhattan(b, g.player) == acc.n;
      assert Seen(b, g.player, p, next);
    }
  }

  /** Visiting the pair (`p`, `q`) updates the goal term exactly when `q` is an uncovered goal. */
  lemma GoalStep(g: Game, p: Coord, q: Coord, acc: Cost)
    requires WellFormed(g.board) && InBounds(g.board, p) && GetField(g.board, p) == Box && InBounds(g.board, q)
    requires GoalTermSoFar(g, acc, p, q)
    ensures GoalTermSoFar(g, if p != q && GetField(g.board, q) == Goal then Min(acc, Fin(Manhattan(p, q))) else acc, p, Coord(q.x, q.y + 1))
  {
    var next := Coord(q.x, q.y + 1);
    var acc' := if p != q && GetField(g.board, q) == Goal then Min(acc, Fin(Manhattan(p, q))) else acc;
    forall b, t | BoxGoalPair(g, b, t) && Seen(b, t, p, next)
      ensures Le(acc', Fin(Manhattan(b, t)))
    {
      if !Seen(b, t, p, q) {
        assert b == p && t == q;
      }
    }
    if acc'.Fin? && acc' != acc {
      assert BoxGoalPair(g, p, q) && Seen(p, q, p, next);
    }
    if acc'.Fin? && acc' == acc {
      var b, t :| BoxGoalPair(g, b, t) && Seen(b, t, p, q) && Manhattan(b, t) == acc.n;
      assert Seen(b, t, p, next);
    }
  }

  /** One pass of the outer loop body (mincostheuristic.cpp:20-42) at cell `p`. */
  method VisitCell(g: Game, p: Coord, ptb: Cost, btg: Cost) returns (ptb': Cost, btg': Cost)
    requires WellFormed(g.board) && InBounds(g.board, p)
    requires PlayerTermSoFar(g, ptb, p, Coord(0, 0)) && GoalTermSoFar(g, btg, p, Coord(0, 0))
    ensures PlayerTermSoFar(g, ptb', Coord(p.x, p.y + 1), Coord(0, 0))
    ensures GoalTermSoFar(g, btg', Coord(p.x, p.y + 1), Coord(0, 0))
  {
    if GetField(g.board, p) == Box {
      ptb', btg' := ScanPartners(g, p, ptb, btg);
    } else {
      ptb', btg' := ptb, btg;
      SkipCell(g, p, ptb, btg);
    }
  }

  /** A cell without a plain box adds no pair to either term. */
  lemma SkipCell(g: Game, p: Coord, acc1: Cost, acc2: Cost)
    requires WellFormed(g.board) && InBounds(g.board, p) && GetField(g.board, p) != Box
    requires PlayerTermSoFar(g, acc1, p, Coord(0, 0)) && GoalTermSoFar(g, acc2, p, Coord(0, 0))
    ensures PlayerTermSoFar(g, acc1, Coord(p.x, p.y + 1), Coord(0, 0))
    ensures GoalTermSoFar(g, acc2, Coord(p.x, p.y + 1), Coord(0, 0))
  {
    var next, o := Coord(p.x, p.y + 1), Coord(0, 0);
    forall b | PlayerBoxPair(g, b) && Seen(b, g.player, next, o)
      ensures Le(acc1, Fin(Manhattan(b, g.player)))
    {
      assert Seen(b, g.player, p, o);
    }
    forall b, t | BoxGoalPair(g, b, t) && Seen(b, t, next, o)
      ensures Le(acc2, Fin(Manhattan(b, t)))
    {
      assert Seen(b, t, p, o);
    }
    if acc1.Fin? {
      var b :| PlayerBoxPair(g, b) && Seen(b, g.player, p, o) && Manhattan(b, g.player) == acc1.n;
      assert Seen(b, g.player, next, o);
    }
    if acc2.Fin? {
      var b, t :| BoxGoalPair(g, b, t) && Seen(b, t, p, o) && Manhattan(b, t) == acc2.n;
      assert Seen(b, t, next, o);
    }
  }

  /**
   * `MinCostHeuristic::operator()`: zero on a goal state; otherwise the two
   * minima, each starting at infinity, accumulated over all pairs of a plain
   * box and another cell, then added.
   */
  method MinCostHeuristic(g: Game) returns (r: Cost)
    requires WellFormed(g.board)
    ensures r == Heuristic(g)
  {
    if IsGoal(g) {
      return Fin(0);
    }
    var w, h := g.board.dimensions.x, g.board.dimensions.y;
    var ptb, btg := Inf, Inf;
    var x0 := 0;
    while x0 < w
      invariant 0 <= x0 <= w
      invariant PlayerTermSoFar(g, ptb, Coord(x0, 0), Coord(0, 0)) && GoalTermSoFar(g, btg, Coord(x0, 0), Coord(0, 0))
    {
      ptb, btg := ScanColumn(g, x0, ptb, btg);
      x0 := x0 + 1;
    }
    LeastIsUnique(g, ptb, btg);
    r := Plus(ptb, btg);
  }

  /** One iteration of the outer `x0` loop: every cell of column `x0` in turn. */
  method ScanColumn(g: Game, x0: int, ptb: Cost, btg: Cost) returns (ptb': Cost, btg': Cost)
    requires WellFormed(g.board) && 0 <= x0 < g.board.dimensions.x
    requires PlayerTermSoFar(g, ptb, Coord(x0, 0), Coord(0, 0)) && GoalTermSoFar(g, btg, Coord(x0, 0), Coord(0, 0))
    ensures PlayerTermSoFar(g, ptb', Coord(x0 + 1, 0), Coord(0, 0)) && GoalTermSoFar(g, btg', Coord(x0 + 1, 0), Coord(0, 0))
  {
    var h := g.board.dimensions.y;
    ptb', btg' := ptb, btg;
    var y0 := 0;
    while y0 < h
      invariant 0 <= y0 <= h
      invariant PlayerTermSoFar(g, ptb', Coord(x0, y0), Coord(0, 0)) && GoalTermSoFar(g, btg', Coord(x0, y0), Coord(0, 0))
    {
      ptb', btg' := VisitCell(g, Coord(x0, y0), ptb', btg');
      y0 := y0 + 1;
    }
    OuterColumnEnds(g, x0, ptb', btg');
  }

  /** Accumulators that are least over all pairs are the two terms of the estimate. */
  lemma LeastIsUnique(g: Game, ptb: Cost, btg: Cost)
    requires WellFormed(g.board)
    requires PlayerTermSoFar(g, ptb, Coord(g.board.dimensions.x, 0), Coord(0, 0))
    requires GoalTermSoFar(g, btg, Coord(g.board.dimensions.x, 0), Coord(0, 0))
    ensures ptb == PlayerToBox(g) && btg == BoxToGoal(g)
  {
    var end := Coord(g.board.dimensions.x, 0);
    AllSeen(g);
    var p := PlayerToBox(g);
    if p.Fin? {
      var b :| PlayerBoxPair(g, b) && Manhattan(b, g.player) == p.n;
      assert Seen(b, g.player, end, Coord(0, 0));
    }
    if ptb.Fin? {
      var b :| PlayerBoxPair(g, b) && Seen(b, g.player, end, Coord(0, 0)) && Manhattan(b, g.player) == ptb.n;
    }
    var q := BoxToGoal(g);
    if q.Fin? {
      var b, t :| BoxGoalPair(g, b, t) && Manhattan(b, t) == q.n;
      assert Seen(b, t, end, Coord(0, 0));
    }
    if btg.Fin? {
      var b, t :| BoxGoalPair(g, b, t) && Seen(b, t, end, Coord(0, 0)) && Manhattan(b, t) == btg.n;
    }
  }
}
