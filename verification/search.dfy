/**
 * `A_star` of search.cpp: best-first search with a cost map `g`, a
 * predecessor map, lazy re-insertion into the frontier on improvement, a
 * `PointerSet` that canonicalises value-equal states, and path
 * reconstruction along the predecessor chain.
 *
 * `A_star` reaches the states only through the virtual members of `State`
 * (`get_neighbors`, `is_goal`), so the search takes them as a `Problem`; the
 * puzzle instance is `Solver.Sokoban`. States live in an arena: index 0 is the
 * start state, and every successor `get_neighbors` allocates takes the next
 * index. References are indices.
 */
module Search {
  import opened Wrappers
  import opened Grid
  import opened Puzzle
  import opened Costs
  import opened Store

  /** `PrioritizedState`: a priority and a reference to a state. */
  datatype Entry = Entry(priority: Cost, state: nat)

  /**
   * `PrioritizedState::operator<`, with the comparison flipped: the heap
   * yields an entry no other entry is greater than, which is one of least
   * priority.
   */
  predicate HeapLess(a: Entry, b: Entry)
  {
    Lt(b.priority, a.priority)
  }

  /** Position of a least-priority entry (the first one). */
  function MinIndex(q: seq<Entry>): (k: nat)
    requires |q| > 0
    ensures k < |q|
    ensures forall e :: e in q ==> Le(q[k].priority, e.priority)
  {
    if |q| == 1 then 0
    else
      var k := MinIndex(q[1..]) + 1;
      assert forall e :: e in q ==> e == q[0] || e in q[1..];
      if Lt(q[k].priority, q[0].priority) then k else 0
  }

  /**
   * `todo.top()` then `todo.pop()`: the entry the heap yields is maximal for
   * `HeapLess`, hence of least priority, and the rest is the frontier without it.
   */
  function PopMin(q: seq<Entry>): (r: (Entry, seq<Entry>))
    requires |q| > 0
    ensures r.0 in q
    ensures forall e :: e in q ==> !HeapLess(r.0, e)
    ensures forall e :: e in q ==> Le(r.0.priority, e.priority)
    ensures multiset(r.1) + multiset{r.0} == multiset(q)
  {
    var k := MinIndex(q);
    assert q == q[..k] + [q[k]] + q[k + 1..];
    (q[k], q[..k] + q[k + 1..])
  }

  /** The members of `State` that `A_star` calls: `get_neighbors` and `is_goal`. */
  datatype Problem = Problem(successors: Game --> seq<Game>, isGoal: Game --> bool)

  /** A well-formed state whose board is bordered by walls. */
  ghost predicate Enclosed(g: Game)
  {
    WellFormed(g.board) && Framed(g.board)
  }

  /** Both members are defined on enclosed states, and successors stay enclosed. */
  ghost predicate Closes(pr: Problem)
  {
    forall a :: Enclosed(a) ==> Sound(pr, a)
  }

  /** Both members are defined on `a`, and its successors are enclosed. */
  ghost predicate Sound(pr: Problem, a: Game)
  {
    && pr.successors.requires(a) && pr.isGoal.requires(a)
    && forall s :: s in pr.successors(a) ==> Enclosed(s)
  }

  /** `b` is a successor `get_neighbors` reports for `a`. */
  ghost predicate Edge(pr: Problem, a: Game, b: Game)
  {
    pr.successors.requires(a) && b in pr.successors(a)
  }

  /** A sequence of states, each a reported successor of the one before. */
  ghost predicate IsWalk(pr: Problem, p: seq<Game>)
  {
    |p| >= 1 && forall i, j :: 0 <= i && j == i + 1 && j < |p| ==> Edge(pr, p[i], p[j])
  }

  /** `p` leads from `start` to a goal state. */
  ghost predicate ReachesGoal(pr: Problem, start: Game, p: seq<Game>)
  {
    IsWalk(pr, p) && p[0] == start && pr.isGoal.requires(p[|p| - 1]) && pr.isGoal(p[|p| - 1])
  }

  ghost predicate GoalReachable(pr: Problem, start: Game)
  {
    exists p :: ReachesGoal(pr, start, p)
  }

  lemma WalkExtends(pr: Problem, p: seq<Game>, s: Game)
    requires IsWalk(pr, p) && Edge(pr, p[|p| - 1], s)
    ensures IsWalk(pr, p + [s])
  {
    var q := p + [s];
    forall i, j | 0 <= i && j == i + 1 && j < |q|
      ensures Edge(pr, q[i], q[j])
    {
      if j < |p| {
        assert q[i] == p[i] && q[j] == p[j];
      }
    }
  }

  /** The search's bookkeeping: `g`, `predecessor` and the frontier `todo`. */
  datatype Book = Book(g: map<nat, nat>, pred: map<nat, nat>, todo: seq<Entry>)

  /** The arena starts with the start state and holds enclosed states only. */
  ghost predicate ArenaOk(arena: seq<Game>, start: Game)
  {
    |arena| >= 1 && arena[0] == start && forall i :: 0 <= i < |arena| ==> Enclosed(arena[i])
  }

  /** Every recorded pair of indices (a, b) is an edge from `arena[a]` to `arena[b]`. */
  ghost predicate Linked(pr: Problem, arena: seq<Game>, links: set<(nat, nat)>)
  {
    forall l :: l in links ==> l.0 < |arena| && l.1 < |arena| && Edge(pr, arena[l.0], arena[l.1])
  }

  lemma LinkedGrows(pr: Problem, arena: seq<Game>, links: set<(nat, nat)>, arena': seq<Game>, l: (nat, nat))
    requires Linked(pr, arena, links)
    requires |arena| <= |arena'| && arena'[..|arena|] == arena
    requires l.0 < |arena'| && l.1 < |arena'| && Edge(pr, arena'[l.0], arena'[l.1])
    ensures Linked(pr, arena', links + {l})
  {
    forall k | k in links
      ensures k.0 < |arena'| && k.1 < |arena'| && Edge(pr, arena'[k.0], arena'[k.1])
    {
      assert arena'[k.0] == arena[k.0] && arena'[k.1] == arena[k.1];
    }
  }

  /**
   * The bookkeeping is consistent: the start has cost 0 and no predecessor,
   * every other state with a cost has a predecessor of strictly smaller cost
   * linked to it by an edge, and the frontier refers to states with a cost.
   */
  ghost predicate BookOk(arena: seq<Game>, b: Book, links: set<(nat, nat)>)
  {
    && 0 in b.g && b.g[0] == 0
    && (forall n :: n in b.g ==> n < |arena|)
    && (forall e :: e in b.todo ==> e.state in b.g)
    && b.pred.Keys == b.g.Keys - {0}
    && forall n :: n in b.pred ==> b.pred[n] in b.g && b.g[b.pred[n]] < b.g[n] && (b.pred[n], n) in links
  }

  /** Relaxing through `current` is an improvement for `m`: a shorter path than any known. */
  predicate Improves(b: Book, current: nat, m: nat)
    requires current in b.g
  {
    m !in b.g || b.g[current] + 1 < b.g[m]
  }

  /**
   * Lines 125-140 for one successor `m` with estimate `hm`: when the path
   * through `current` is strictly shorter, `m` gets that cost, `current` as
   * predecessor, and a frontier entry of priority cost plus estimate.
   */
  function Relax(b: Book, current: nat, m: nat, hm: Cost): (r: Book)
    requires current in b.g
    ensures r.g.Keys == b.g.Keys + {m}
    ensures forall n :: n in b.g && n != m ==> r.g[n] == b.g[n]
    ensures m in b.g ==> r.g[m] <= b.g[m]
    ensures r.g[m] <= b.g[current] + 1
    ensures Improves(b, current, m) ==> r.g[m] == b.g[current] + 1 && r.pred == b.pred[m := current]
    ensures Improves(b, current, m) ==> r.todo == b.todo + [Entry(Plus(Fin(r.g[m]), hm), m)]
    ensures !Improves(b, current, m) ==> r == b
  {
    var oldG := if m in b.g then Fin(b.g[m]) else Inf;
    var tentative := b.g[current] + 1;
    if Lt(Fin(tentative), oldG) then
      Book(b.g[m := tentative], b.pred[m := current], b.todo + [Entry(Plus(Fin(tentative), hm), m)])
    else
      b
  }

  /** A state whose cost a relaxation lowers or sets is waiting in the frontier. */
  lemma RelaxQueues(b: Book, current: nat, m: nat, hm: Cost)
    requires current in b.g
    ensures var r := Relax(b, current, m, hm);
      forall n :: n in r.g && (n !in b.g || r.g[n] < b.g[n]) ==> InFrontier(r.todo, n)
  {
    var r := Relax(b, current, m, hm);
    forall n | n in r.g && (n !in b.g || r.g[n] < b.g[n])
      ensures InFrontier(r.todo, n)
    {
      assert n == m && Improves(b, current, m);
      assert r.todo[|r.todo| - 1] in r.todo;
    }
  }

  /** Relaxing along a recorded edge keeps the bookkeeping consistent. */
  lemma RelaxKeepsBook(arena: seq<Game>, b: Book, links: set<(nat, nat)>, current: nat, m: nat, hm: Cost)
    requires BookOk(arena, b, links) && current in b.g && 0 < m < |arena| && (current, m) in links
    ensures BookOk(arena, Relax(b, current, m, hm), links)
  {
    var r := Relax(b, current, m, hm);
    if Improves(b, current, m) {
      forall n | n in r.pred
        ensures r.pred[n] in r.g && r.g[r.pred[n]] < r.g[n] && (r.pred[n], n) in links
      {
        if n != m {
          assert r.pred[n] == b.pred[n] && r.g[n] == b.g[n];
        }
      }
      assert forall e :: e in r.todo ==> e in b.todo || e.state == m;
    }
  }

  /** Some state with a cost is equal to `s`. */
  ghost predicate Represented(arena: seq<Game>, keys: set<nat>, s: Game)
  {
    exists m :: m in keys && m < |arena| && arena[m] == s
  }

  /** `n` has been expanded: not a goal, and each of its successors has a cost. */
  ghost predicate Closed(pr: Problem, arena: seq<Game>, keys: set<nat>, n: nat)
  {
    && n < |arena| && pr.isGoal.requires(arena[n]) && !pr.isGoal(arena[n])
    && pr.successors.requires(arena[n])
    && forall s :: s in pr.successors(arena[n]) ==> Represented(arena, keys, s)
  }

  /** Every index in `closed` has been expanded. */
  ghost predicate AllClosed(pr: Problem, arena: seq<Game>, keys: set<nat>, closed: set<nat>)
  {
    forall n :: n in closed ==> Closed(pr, arena, keys, n)
  }

  ghost predicate InFrontier(todo: seq<Entry>, n: nat)
  {
    exists e :: e in todo && e.state == n
  }

  /** Every state with a cost is waiting in the frontier or has been expanded. */
  ghost predicate Explored(b: Book, closed: set<nat>)
  {
    forall n :: n in b.g ==> InFrontier(b.todo, n) || n in closed
  }

  lemma RepresentedGrows(arena: seq<Game>, keys: set<nat>, arena': seq<Game>, keys': set<nat>, s: Game)
    requires Represented(arena, keys, s)
    requires |arena| <= |arena'| && arena'[..|arena|] == arena && keys <= keys'
    ensures Represented(arena', keys', s)
  {
    var m :| m in keys && m < |arena| && arena[m] == s;
    assert arena'[m] == arena[m];
  }

  lemma ClosedGrows(pr: Problem, arena: seq<Game>, keys: set<nat>, arena': seq<Game>, keys': set<nat>, n: nat)
    requires Closed(pr, arena, keys, n)
    requires |arena| <= |arena'| && arena'[..|arena|] == arena && keys <= keys'
    ensures Closed(pr, arena', keys', n)
  {
    assert arena'[n] == arena[n];
    forall s | s in pr.successors(arena[n])
      ensures Represented(arena', keys', s)
    {
      RepresentedGrows(arena, keys, arena', keys', s);
    }
  }

  /**
   * Expanding `current` keeps the expanded states expanded and adds `current`,
   * once all its successors have a cost.
   */
  lemma ExpansionCloses(pr: Problem, arena: seq<Game>, keys: set<nat>, closed: set<nat>,
                        arena': seq<Game>, keys': set<nat>, current: nat)
    requires AllClosed(pr, arena, keys, closed)
    requires |arena| <= |arena'| && arena'[..|arena|] == arena && keys <= keys'
    requires current < |arena| && pr.isGoal.requires(arena[current]) && !pr.isGoal(arena[current])
    requires pr.successors.requires(arena[current])
    requires forall s :: s in pr.successors(arena[current]) ==> Represented(arena', keys', s)
    ensures AllClosed(pr, arena', keys', closed + {current})
  {
    forall n | n in closed
      ensures Closed(pr, arena', keys', n)
    {
      ClosedGrows(pr, arena, keys, arena', keys', n);
    }
    assert arena'[current] == arena[current];
  }

  lemma FrontierGrows(todo: seq<Entry>, todo': seq<Entry>, n: nat)
    requires InFrontier(todo, n) && forall e :: e in todo ==> e in todo'
    ensures InFrontier(todo', n)
  {
    var e :| e in todo && e.state == n;
    assert e in todo';
  }

  /**
   * Lines 122-124: the successor `s` takes the next arena slot (`new
   * Game(*this)`), is inserted into `visited`, and is looked up again; the
   * reference found is the canonical one for its value, which is the new
   * slot exactly when no equal state was stored before.
   */
  method Intern(arena: seq<Game>, visited: PointerSet, s: Game, hash: Game -> int, ghost start: Game)
    returns (arena': seq<Game>, visited': PointerSet, m: nat)
    requires ArenaOk(arena, start) && Enclosed(s) && Valid(visited, arena, hash) && 0 !in Members(visited)
    ensures arena' == arena + [s]
    ensures ArenaOk(arena', start) && Valid(visited', arena', hash) && 0 !in Members(visited')
    ensures 0 < m < |arena'| && arena'[m] == s && m in Members(visited')
    ensures m == |arena| <==> forall i :: i in Members(visited) && i < |arena| ==> arena[i] != s
  {
    ValidExtends(visited, arena, [s], hash);
    arena' := arena + [s];
    var copy := |arena'| - 1;
    visited' := Insert(visited, arena', hash, copy);
    m := Find(visited', arena', hash, s).value;
  }

  /**
   * One pass of the loop body of lines 122-140 for the successor `s` of
   * `current`: `s` is allocated, interned, looked up to its canonical
   * reference `m`, and relaxed through `current`.
   */
  method Visit(pr: Problem, arena: seq<Game>, visited: PointerSet, b: Book, current: nat, s: Game,
               heuristic: Game -> Cost, hash: Game -> int, ghost start: Game, ghost links: set<(nat, nat)>)
    returns (arena': seq<Game>, visited': PointerSet, b': Book, ghost links': set<(nat, nat)>)
    requires ArenaOk(arena, start) && Enclosed(s) && Valid(visited, arena, hash) && 0 !in Members(visited)
    requires BookOk(arena, b, links) && Linked(pr, arena, links) && current in b.g
    requires Edge(pr, arena[current], s)
    ensures ArenaOk(arena', start) && |arena| <= |arena'| && arena'[..|arena|] == arena
    ensures Valid(visited', arena', hash) && 0 !in Members(visited')
    ensures BookOk(arena', b', links') && Linked(pr, arena', links')
    ensures b.g.Keys <= b'.g.Keys
    ensures forall n :: n in b.g ==> b'.g[n] <= b.g[n]
    ensures forall e :: e in b.todo ==> e in b'.todo
    ensures forall n :: n in b'.g && (n !in b.g || b'.g[n] < b.g[n]) ==> InFrontier(b'.todo, n)
    ensures Represented(arena', b'.g.Keys, s)
  {
    var m;
    arena', visited', m := Intern(arena, visited, s, hash, start);
    assert arena'[current] == arena[current];
    LinkedGrows(pr, arena, links, arena', (current, m));
    links' := links + {(current, m)};
    RelaxKeepsBook(arena', b, links', current, m, heuristic(arena'[m]));
    b' := Relax(b, current, m, heuristic(arena'[m]));
    RelaxQueues(b, current, m, heuristic(arena'[m]));
  }

  /**
   * The loop over `current->get_neighbors()` (lines 121-141): every successor
   * ends up with a cost, no cost grows, and every state whose cost fell is
   * waiting in the frontier.
   */
  method Expand(pr: Problem, arena: seq<Game>, visited: PointerSet, b: Book, current: nat,
                heuristic: Game -> Cost, hash: Game -> int, ghost start: Game, ghost links: set<(nat, nat)>)
    returns (arena': seq<Game>, visited': PointerSet, b': Book, ghost links': set<(nat, nat)>)
    requires Closes(pr) && ArenaOk(arena, start) && Valid(visited, arena, hash) && 0 !in Members(visited)
    requires BookOk(arena, b, links) && Linked(pr, arena, links) && current in b.g
    ensures pr.successors.requires(arena[current])
    ensures ArenaOk(arena', start) && |arena| <= |arena'| && arena'[..|arena|] == arena
    ensures Valid(visited', arena', hash) && 0 !in Members(visited')
    ensures BookOk(arena', b', links') && Linked(pr, arena', links')
    ensures b.g.Keys <= b'.g.Keys
    ensures forall n :: n in b.g ==> b'.g[n] <= b.g[n]
    ensures forall e :: e in b.todo ==> e in b'.todo
    ensures forall n :: n in b'.g && (n !in b.g || b'.g[n] < b.g[n]) ==> InFrontier(b'.todo, n)
    ensures forall s :: s in pr.successors(arena[current]) ==> Represented(arena', b'.g.Keys, s)
  {
    var state := arena[current];
    assert Enclosed(state);
    var neighbors := pr.successors(state);
    arena', visited', b', links' := arena, visited, b, links;
    var j := 0;
    while j < |neighbors|
      invariant 0 <= j <= |neighbors|
      invariant ArenaOk(arena', start) && |arena| <= |arena'| && arena'[..|arena|] == arena
      invariant Valid(visited', arena', hash) && 0 !in Members(visited')
      invariant BookOk(arena', b', links') && Linked(pr, arena', links')
      invariant b.g.Keys <= b'.g.Keys
      invariant forall n :: n in b.g ==> b'.g[n] <= b.g[n]
      invariant forall e :: e in b.todo ==> e in b'.todo
      invariant forall n :: n in b'.g && (n !in b.g || b'.g[n] < b.g[n]) ==> InFrontier(b'.todo, n)
      invariant forall k :: 0 <= k < j ==> Represented(arena', b'.g.Keys, neighbors[k])
    {
      assert neighbors[j] in neighbors;
      ghost var arena0, b0 := arena', b';
      assert arena0[current] == state;
      arena', visited', b', links' := Visit(pr, arena', visited', b', current, neighbors[j], heuristic, hash, start, links');
      forall k | 0 <= k < j
        ensures Represented(arena', b'.g.Keys, neighbors[k])
      {
        RepresentedGrows(arena0, b0.g.Keys, arena', b'.g.Keys, neighbors[k]);
      }
      forall n | n in b'.g && (n !in b.g || b'.g[n] < b.g[n])
        ensures InFrontier(b'.todo, n)
      {
        if n in b0.g && !(n !in b0.g || b'.g[n] < b0.g[n]) {
          FrontierGrows(b0.todo, b'.todo, n);
        }
      }
      j := j + 1;
    }
  }

  /**
   * After `current` is popped and expanded, every state with a cost is again
   * waiting in the frontier or expanded.
   */
  lemma ExpandKeepsExplored(b0: Book, closed: set<nat>, top: Entry, rest: seq<Entry>, b': Book)
    requires Explored(b0, closed)
    requires multiset(rest) + multiset{top} == multiset(b0.todo)
    requires b0.g.Keys <= b'.g.Keys
    requires forall e :: e in rest ==> e in b'.todo
    requires forall n :: n in b'.g && (n !in b0.g || b'.g[n] < b0.g[n]) ==> InFrontier(b'.todo, n)
    ensures Explored(b', closed + {top.state})
  {
    forall n | n in b'.g
      ensures InFrontier(b'.todo, n) || n in closed + {top.state}
    {
      if n in b0.g && !(b'.g[n] < b0.g[n]) && n != top.state && InFrontier(b0.todo, n) {
        var e :| e in b0.todo && e.state == n;
        assert e in multiset(b0.todo);
        assert e in multiset(rest);
        FrontierGrows(rest, b'.todo, n);
      }
    }
  }

  /**
   * The predecessor chain ending at `n`, oldest first: the `do`/`while` of
   * lines 146-151 collects it newest first, stopping before the first state
   * without a predecessor, and `std::reverse` turns it round.
   */
  function Ancestry(arena: seq<Game>, b: Book, ghost links: set<(nat, nat)>, n: nat): (r: seq<Game>)
    requires BookOk(arena, b, links) && n in b.g
    ensures |r| >= 1 && r[|r| - 1] == arena[n]
    decreases b.g[n]
  {
    if n in b.pred && b.pred[n] in b.pred then Ancestry(arena, b, links, b.pred[n]) + [arena[n]] else [arena[n]]
  }

  /** The reconstructed path of a state other than the start is a walk from the start. */
  lemma {:induction false} AncestryIsWalk(pr: Problem, arena: seq<Game>, b: Book, links: set<(nat, nat)>, n: nat)
    requires |arena| >= 1 && BookOk(arena, b, links) && Linked(pr, arena, links) && n in b.g && n != 0
    ensures IsWalk(pr, [arena[0]] + Ancestry(arena, b, links, n))
    decreases b.g[n]
  {
    var p := b.pred[n];
    assert (p, n) in links;
    if p in b.pred {
      AncestryIsWalk(pr, arena, b, links, p);
      WalkExtends(pr, [arena[0]] + Ancestry(arena, b, links, p), arena[n]);
      assert [arena[0]] + Ancestry(arena, b, links, n) == [arena[0]] + Ancestry(arena, b, links, p) + [arena[n]];
    } else {
      assert [arena[0]] + Ancestry(arena, b, links, n) == [arena[0], arena[n]];
    }
  }

  /** Along any walk from a state with a cost, every state reached is equal to one with a cost. */
  lemma {:induction false} WalksStayRepresented(pr: Problem, arena: seq<Game>, keys: set<nat>, closed: set<nat>, p: seq<Game>)
    requires keys <= closed && AllClosed(pr, arena, keys, closed)
    requires IsWalk(pr, p) && Represented(arena, keys, p[0])
    ensures Represented(arena, keys, p[|p| - 1])
    decreases |p|
  {
    if |p| > 1 {
      var q := p[..|p| - 1];
      forall i, j | 0 <= i && j == i + 1 && j < |q|
        ensures Edge(pr, q[i], q[j])
      {
        assert q[i] == p[i] && q[j] == p[j];
      }
      WalksStayRepresented(pr, arena, keys, closed, q);
      var m :| m in keys && m < |arena| && arena[m] == q[|q| - 1];
      assert Closed(pr, arena, keys, m);
      assert Edge(pr, p[|p| - 2], p[|p| - 1]);
    }
  }

  /** When every state with a cost is expanded, no goal can be reached from the start. */
  lemma ClosedSetHasNoGoal(pr: Problem, arena: seq<Game>, keys: set<nat>, closed: set<nat>, start: Game)
    requires keys <= closed && AllClosed(pr, arena, keys, closed)
    requires Represented(arena, keys, start)
    ensures !GoalReachable(pr, start)
  {
    forall p | ReachesGoal(pr, start, p)
      ensures false
    {
      WalksStayRepresented(pr, arena, keys, closed, p);
    }
  }

  /**
   * The path `A_star` returns for the goal state `n`: from the start to `n`
   * along successors, or `[start, start]` when `n` is the start itself.
   */
  lemma GoalPath(pr: Problem, start: Game, arena: seq<Game>, b: Book, links: set<(nat, nat)>, n: nat)
    requires ArenaOk(arena, start) && BookOk(arena, b, links) && Linked(pr, arena, links) && n in b.g
    requires pr.isGoal.requires(arena[n]) && pr.isGoal(arena[n])
    ensures var path := [start] + Ancestry(arena, b, links, n);
      && |path| >= 2 && path[0] == start && path[|path| - 1] == arena[n]
      && (n == 0 ==> path == [start, start])
      && (n != 0 ==> IsWalk(pr, path))
      && GoalReachable(pr, start)
  {
    var path := [start] + Ancestry(arena, b, links, n);
    if n == 0 {
      assert path == [start, start];
      assert ReachesGoal(pr, start, [start]);
    } else {
      AncestryIsWalk(pr, arena, b, links, n);
      assert ReachesGoal(pr, start, path);
    }
  }

  /**
   * `A_star` with the main loop bounded by `fuel` iterations: `finished`
   * tells whether it ended within them. A non-empty result runs from the start
   * to a goal state along reported successors, except that a start state that
   * is already a goal comes back as `[start, start]`; an empty result after
   * the frontier runs dry means no goal state is reachable.
   */
  method AStar(pr: Problem, start: Game, heuristic: Game -> Cost, hash: Game -> int, fuel: nat)
    returns (path: seq<Game>, finished: bool)
    requires Closes(pr) && Enclosed(start)
    ensures !finished ==> path == []
    ensures path != [] ==> |path| >= 2 && path[0] == start
    ensures path != [] ==> pr.isGoal.requires(path[|path| - 1]) && pr.isGoal(path[|path| - 1])
    ensures path != [] && pr.isGoal(start) ==> path == [start, start]
    ensures path != [] && !pr.isGoal(start) ==> IsWalk(pr, path)
    ensures finished ==> (path == [] <==> !GoalReachable(pr, start))
  {
    var arena := [start];
    var visited := EmptySet();
    var b := Book(map[0 := 0], map[], [Entry(heuristic(start), 0)]);
    ghost var links: set<(nat, nat)> := {};
    ghost var closed: set<nat> := {};
    var goal: Option<nat> := None;
    var steps := fuel;
    assert InFrontier(b.todo, 0) by {
      assert b.todo[0] in b.todo;
    }
    while b.todo != []
      invariant ArenaOk(arena, start) && Valid(visited, arena, hash) && 0 !in Members(visited)
      invariant BookOk(arena, b, links) && Linked(pr, arena, links)
      invariant Explored(b, closed) && AllClosed(pr, arena, b.g.Keys, closed)
      invariant goal.None?
      invariant pr.isGoal(start) ==> b.todo == [Entry(heuristic(start), 0)]
      decreases steps
    {
      if steps == 0 {
        return [], false;
      }
      steps := steps - 1;
      var popped := PopMin(b.todo);
      var top, rest := popped.0, popped.1;
      var current := top.state;
      ghost var b0 := b;
      b := b.(todo := rest);
      assert forall e :: e in rest ==> e in multiset(b0.todo);
      assert Enclosed(arena[current]);
      if pr.isGoal(arena[current]) {
        assert pr.isGoal(start) ==> current == 0;
        goal := Some(current);
        break;
      }
      ghost var arena0 := arena;
      arena, visited, b, links := Expand(pr, arena, visited, b, current, heuristic, hash, start, links);
      ExpandKeepsExplored(b0, closed, top, rest, b);
      ExpansionCloses(pr, arena0, b0.g.Keys, closed, arena, b.g.Keys, current);
      closed := closed + {current};
    }
    if goal.None? {
      ClosedSetHasNoGoal(pr, arena, b.g.Keys, closed, start);
      return [], true;
    }
    var n := goal.value;
    assert n != 0 ==> !pr.isGoal(start);
    path := [start] + Ancestry(arena, b, links, n);
    GoalPath(pr, start, arena, b, links, n);
    finished := true;
  }
}

/** The puzzle as a search problem: `A_star` run on a `Game`. */
module Solver {
  import opened Grid
  import opened Puzzle
  import opened PuzzleFacts
  import opened Costs
  import opened Search

  /** `Game::get_neighbors` and `Game::is_goal` as the members `A_star` calls. */
  function Sokoban(): Problem
  {
    Problem(Neighbors, IsGoal)
  }

  /** On wall-framed boards both members are defined and successors stay wall-framed. */
  lemma SokobanCloses()
    ensures Closes(Sokoban())
  {
    forall a | Enclosed(a)
      ensures Sokoban().successors.requires(a) && Sokoban().isGoal.requires(a)
      ensures forall s :: s in Sokoban().successors(a) ==> Enclosed(s)
    {
      NeighborsStayFramed(a);
    }
  }

  /** A search edge of the puzzle is exactly a successor reported by `get_neighbors`. */
  lemma SokobanEdge(a: Game, b: Game)
    ensures Edge(Sokoban(), a, b) <==> WellFormed(a.board) && ExpandSafe(a) && b in Neighbors(a)
  {
  }

  /**
   * `A_star(start, heuristic)` on a puzzle whose border is walls: a non-empty
   * path starts at `start`, ends in a solved state and follows `get_neighbors`
   * (or is `[start, start]` when `start` is solved); an empty path after the
   * frontier runs dry means no solved state can be reached.
   */
  method Solve(start: Game, heuristic: Game -> Cost, hash: Game -> int, fuel: nat)
    returns (path: seq<Game>, finished: bool)
    requires WellFormed(start.board) && Framed(start.board)
    ensures !finished ==> path == []
    ensures path != [] ==> |path| >= 2 && path[0] == start
    ensures path != [] ==> WellFormed(path[|path| - 1].board) && IsGoal(path[|path| - 1])
    ensures path != [] && IsGoal(start) ==> path == [start, start]
    ensures path != [] && !IsGoal(start) ==> IsWalk(Sokoban(), path)
    ensures finished ==> (path == [] <==> !GoalReachable(Sokoban(), start))
  {
    SokobanCloses();
    path, finished := AStar(Sokoban(), start, heuristic, hash, fuel);
  }
}
