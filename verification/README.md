# Sokoban: puzzle, text format, A* search and estimate, in Dafny

This project models the core of a small Sokoban game and solver:

- the puzzle state (`Game` in game.cpp, with a C copy in sokoban.c): a row-major board of empty cells, walls, boxes, boxes on goals and goals, plus the player's position. It covers the move rules (`is_action_legal`, `take_action` with its 0/1/2 move code), the goal test, the corner-deadlock filter `is_obviously_unsolvable`, successor generation `get_neighbors` (left, right, up, down), value equality and the hash contract;
- the text board format of io.cpp (and its C copy): `board_to_string` and `board_from_string`, including two quirks of the parser, both modelled as written:
  - it computes the height as `len / width`;
  - it never writes the cell under the player;
- the search of search.cpp:
  - `PointerSet`, the hash-bucketed set that canonicalises value-equal states;
  - `A_star`, a best-first search with a cost map `g`, a predecessor map, lazy re-insertion into the frontier on improvement, and reconstruction of the path along the predecessor chain;
- the estimate of mincostheuristic.cpp (`MinCostHeuristic::operator()`).

Modules:

- `Grid`: coordinates, fields, boards.
- `Puzzle`: the game.
- `PuzzleFacts`: properties that tie several operations together.
- `Codec`: io.cpp.
- `CTwin`: sokoban.c. Its functions are written as the imperative loops they are and proved to compute what the functional model computes.
- `Costs`: whole-number costs with infinity, standing in for the doubles.
- `MinCost`: the estimate.
- `Store`: `PointerSet`.
- `Search`: `A_star`, over any `Problem`.
- `Solver`: `A_star` on the puzzle.

States of the search live in an arena `seq<Game>`; a reference is an index into it. Index 0 is the start state, and each successor `get_neighbors` allocates takes the next index. The search only sees the puzzle through the two virtual members it calls (`get_neighbors`, `is_goal`), bundled as a `Problem`.

Some reads in the source are not bounds-checked: the cell beyond a pushed box, and the four neighbours of a box in the deadlock filter. They appear as preconditions saying exactly what keeps them on the board (`PushReadSafe`, `PlainBoxesInterior`, `ExpandSafe`). The search is stated for wall-framed levels (`Framed`: every border cell is a wall), which imply all of them and which every move preserves.

## Model

| member | source | states |
|---|---|---|
| Grid.LessIsStrictTotalOrder | game.cpp:40-42 | `Coord::operator<` (x first, then y) is irreflexive, asymmetric, transitive and total on distinct coordinates |
| Grid.GetIndex | game.cpp:76-78 | the row-major index `x + width * y` of an in-bounds cell lies in `[0, width * height)` |
| Grid.IndexInjective | sokoban.c:61-63 | two in-bounds cells share a row-major index exactly when they are the same cell |
| Grid.IndexOnto | game.cpp:76-78 | every index of a well-formed grid is the index of an in-bounds cell |
| Grid.SetField | game.cpp:90-92 | `set_field` writes the value at the cell, leaves every other cell as it was, and replaces exactly one occurrence in the multiset of cells |
| Grid.BoardEqual | game.cpp:97-108 | board equality holds exactly when dimensions and cell contents are equal |
| Puzzle.IsActionLegal | game.cpp:127-151 | a move off the board is illegal; a move onto an empty or goal cell is legal; a move onto a box is legal exactly when the cell beyond is empty or a goal; walls are never entered |
| Puzzle.LiftBox | game.cpp:183-189 | lifting a box leaves an empty cell or an uncovered goal, one box fewer and the goal count unchanged, and touches no other cell |
| Puzzle.DropBox | game.cpp:191-199 | dropping a box on a free cell yields a box (on a goal when it was a goal), one box more, and touches no other cell |
| Puzzle.TakeAction | game.cpp:176-206 | the player moves by the action, the dimensions stay, a board without a push is unchanged, the move code is 0 without a push, 1 when the box lands on an empty cell and 2 when it lands on a goal, and the box and goal counts are conserved |
| Puzzle.TakeActionFrame | game.cpp:176-206 | only the destination cell and the cell beyond it can change |
| Puzzle.TakeActionKeepsWallsAndGoals | game.cpp:184-204 | every cell keeps its wall status and its goal marking |
| Puzzle.TakeActionMovesBox | game.cpp:191-199 | after a push, the destination holds no box and the cell beyond holds one |
| Puzzle.IsGoal | game.cpp:156-168 | the goal test holds exactly when no cell is a plain box and no cell is an uncovered goal |
| Puzzle.LodgedBox | game.cpp:218-232 | one iteration of the scan answers yes exactly when its cell holds a plain box with a wall to the left or right and a wall above or below |
| Puzzle.IsObviouslyUnsolvableScan | game.cpp:215-237 | the scan, columns outer and rows inner and stopping at the first lodged box, returns true exactly when the corner-deadlock filter holds, that is, when some plain box on the board is lodged in a corner of walls |
| Puzzle.ChildContribution | game.cpp:248-259 | one iteration of `get_neighbors` contributes at most one state, namely the legal move's result that the deadlock filter lets through |
| Puzzle.Neighbors | game.cpp:242-261 | at most four successors; a state is a successor exactly when some direction's legal move yields it and it is not obviously unsolvable; successors appear in the order left, right, up, down |
| Puzzle.GameEqual | game.cpp:266-269 | state equality holds exactly when player positions and boards are equal |
| Puzzle.HashRespectsEquality | game.cpp:274-283 | value-equal states hash alike; this is the only fact about the hash the pointer set relies on, and it holds for any hash function, not only the XOR combination the source uses |
| PuzzleFacts.InteriorBoxesMakeReadsSafe | game.cpp:141-142 | when no box lies on the border, the read beyond a pushed box stays on the board |
| PuzzleFacts.TakeActionKeepsFrame | game.cpp:176-206 | a wall-framed board stays wall-framed after any legal move |
| PuzzleFacts.NeighborsStayFramed | game.cpp:242-261 | on a wall-framed board every read of `get_neighbors` is in bounds, and every successor is wall-framed with the same size, box count and goal count |
| PuzzleFacts.TakeActionKeepsPlayerOk | game.cpp:176-206 | a legal move leaves the player on the board on an empty or goal cell |
| PuzzleFacts.CornerBoxPersists | game.cpp:215-237 | a plain box lodged in a corner stays there, still cornered, after any legal move |
| PuzzleFacts.DeadlockIsPermanent | game.cpp:215-237 | from a state the deadlock filter flags, every legal move leads to a flagged state that is not a goal state |
| PuzzleFacts.DeadlockedHasNoNeighbors | game.cpp:242-261 | a flagged state has no successors |
| Codec.CharOf | io.cpp:23 | no field is rendered as a newline, a NUL or the player's character |
| Codec.FieldOf | io.cpp:78-95 | a character decodes to the field rendered as it, and characters outside the table decode to nothing |
| Codec.FieldOfCharOf | io.cpp:42-52 | the character map is injective: each rendered field reads back as itself |
| Codec.BoardToString | io.cpp:28-56 | the text has `(w + 1) * h` characters, a newline exactly at the positions `i` with `i mod (w + 1) = w`, the player's character at the player's cell, every other cell's field character at its position, and no NUL |
| Codec.FirstNewline | io.cpp:63 | the index of the first newline, or none when there is no newline |
| Codec.Header | io.cpp:62-65 | the width check fails exactly on a missing newline, on an empty first line, or on a length that is not a multiple of width + 1; otherwise it yields the first line's length |
| Codec.Step | io.cpp:72-95 | one loop iteration fails exactly at a position that breaks the format (a long row or an unknown character), and it keeps the grid's shape |
| Codec.ScanFailure | io.cpp:71-96 | the loop fails exactly when some later position breaks the format, and it reports the first one |
| Codec.ScanCells | io.cpp:82-91 | after the loop, each cell holds the last field character written to it, or what it held before |
| Codec.ScanPlayer | io.cpp:79-81 | after the loop, the player stands at the last player character, or where it stood before |
| Codec.Blank | io.cpp:67-70 | the parser starts with the player at the origin and every slot uninitialised |
| Codec.Parse | io.cpp:67-97 | on a w-by-h grid, the loop succeeds exactly when no position breaks the format, and then it decodes the text |
| Codec.BoardFromString | io.cpp:61-98 | header errors are reported as such; past the header, parsing succeeds exactly when no position breaks the format, reports the first bad position otherwise, and on success yields a width-by-(len / width) grid that decodes the text |
| Codec.RenderedTextIsWellFormed | io.cpp:28-65 | the text of a board at least one cell wide and high passes every format check, with the width as the first line's length |
| Codec.RenderedPlayer | io.cpp:40-41 | player characters in the text stand exactly at the player's cell |
| Codec.ReadBack | io.cpp:71-96 | reading the text of a board into a grid of at least its height recovers the player and every cell but the player's, which stays uninitialised |
| Codec.RoundTrip | io.cpp:28-98 | with fewer rows than columns, parsing the text of a board recovers its dimensions, its player (when on the board) and every cell other than the player's |
| Codec.HeightOvershoot | io.cpp:66 | with at least as many rows as columns, parsing the text of a board reports more rows than it has |
| Codec.OneByOneReadsTwoRows | io.cpp:66 | the text of a 1-by-1 board parses as 1 wide and 2 high |
| Codec.BoardFromStringCorrected | io.cpp:61-98 | the parser with height len / (width + 1): the same error behaviour, and on success the grid has as many rows as the text has lines |
| Codec.RoundTripCorrected | io.cpp:28-98 | with the corrected height, parsing the text of any board at least one cell wide and high recovers its dimensions, its player and every cell other than the player's |
| CTwin.IsActionLegal | sokoban.c:82-106 | the C move check agrees with the game model's |
| CTwin.IsGoalState | sokoban.c:111-123 | the C goal test, scanning column by column, agrees with the game model's |
| CTwin.TakeAction | sokoban.c:128-154 | the C move yields the game model's successor and conserves the box count |
| CTwin.BoardToString | sokoban.c:178-204 | the C renderer writes the text of the functional renderer |
| CTwin.BoardFromString | sokoban.c:210-252 | the C parser yields the functional parser's result, including its errors and its len / width height |
| Costs.Plus | search.cpp:138 | the sum of costs is infinite exactly when a summand is, and otherwise adds the values |
| Costs.LtIsStrictTotalOrder | search.cpp:41-45 | the comparison of priorities is irreflexive, asymmetric, transitive and total on distinct costs |
| MinCost.Manhattan | mincostheuristic.cpp:32-33 | the Manhattan distance is zero exactly between equal cells |
| MinCost.Least | mincostheuristic.cpp:16-17 | the minimum of a set of distances is infinite exactly when the set is empty, and otherwise is an element no greater than any other |
| MinCost.PlayerToBox | mincostheuristic.cpp:34-36 | the player term is finite exactly when some plain box stands apart from an on-board player, is attained by one, and is at most every such distance |
| MinCost.BoxToGoal | mincostheuristic.cpp:37-39 | the goal term is finite exactly when there is a plain box and an uncovered goal, is attained by such a pair, and is at most every such distance |
| MinCost.Heuristic | mincostheuristic.cpp:11-45 | the estimate is 0 on goal states; elsewhere it is finite exactly when both terms have a candidate, and then it is at least 2 |
| MinCost.HeuristicIsLeastSum | mincostheuristic.cpp:16-44 | away from goal states the estimate is attained by a player-to-box plus box-to-goal sum, and no such sum is smaller |
| MinCost.Min | mincostheuristic.cpp:35 | `std::min` yields one of its arguments, no greater than either |
| MinCost.PlayerStep | mincostheuristic.cpp:34-36 | visiting a pair keeps the player term least over the visited pairs |
| MinCost.GoalStep | mincostheuristic.cpp:37-39 | visiting a pair keeps the goal term least over the visited pairs |
| MinCost.SkipCell | mincostheuristic.cpp:21-24 | a cell without a plain box contributes nothing to either term |
| MinCost.Measure | mincostheuristic.cpp:27-39 | the innermost body keeps both terms least over the pairs visited so far |
| MinCost.ScanPartners | mincostheuristic.cpp:25-41 | the inner loops for a plain box add all of its pairs to both terms |
| MinCost.VisitCell | mincostheuristic.cpp:20-42 | one outer iteration adds all pairs of its cell |
| MinCost.ScanColumn | mincostheuristic.cpp:19-42 | one column of the outer loops adds all pairs of the cells in that column |
| MinCost.LeastIsUnique | mincostheuristic.cpp:16-44 | accumulators that are least over all pairs are the two terms of the estimate |
| MinCost.MinCostHeuristic | mincostheuristic.cpp:11-45 | the nested loops compute the estimate |
| Store.EmptySet | search.cpp:56 | a new set stores no reference and is valid for every arena and every hash function |
| Store.ValidMeansDistinct | search.cpp:61-74 | stored references refer to pairwise different state values |
| Store.ScanBucket | search.cpp:82-87 | the bucket scan returns a member equal to the query, or nothing exactly when no member is equal |
| Store.Find | search.cpp:76-88 | `find` returns a stored reference to a state equal to the query, and returns null exactly when no stored state is equal |
| Store.Count | search.cpp:57-59 | `count` is 1 when an equal state is stored and 0 otherwise |
| Store.Insert | search.cpp:61-74 | `insert` keeps the set valid, changes nothing when an equal state is stored, otherwise adds exactly the new reference, and afterwards `find` succeeds |
| Search.PopMin | search.cpp:114-115 | the popped entry comes from the frontier, no entry has a smaller priority, and the rest is the frontier without it |
| Search.Relax | search.cpp:125-140 | a successor's cost changes only when the path through the current state is strictly shorter; then it becomes that length, its predecessor becomes the current state, and it is queued with priority cost plus estimate; no cost ever grows |
| Search.RelaxQueues | search.cpp:136-139 | a state whose cost is lowered or set is waiting in the frontier |
| Search.RelaxKeepsBook | search.cpp:125-140 | relaxing along an edge keeps the bookkeeping consistent: each state but the start has a predecessor of strictly smaller cost joined to it by an edge |
| Search.Intern | search.cpp:123-124 | the successor is stored unless an equal state already is, and the reference found is a stored one equal to it, the new slot exactly when no equal state was stored before |
| Search.Visit | search.cpp:122-140 | handling one successor keeps the search invariants, never raises a cost, only adds frontier entries, queues every cost it lowers or sets, and leaves a state equal to the successor with a cost |
| Search.Expand | search.cpp:121-141 | after the neighbour loop every successor of the current state is equal to a state with a cost, no cost has grown, and every lowered cost is queued |
| Search.ExpandKeepsExplored | search.cpp:112-142 | after an iteration every state with a cost is waiting in the frontier or has been expanded |
| Search.ExpansionCloses | search.cpp:117-141 | an expanded state is not a goal, and all its successors have a cost |
| Search.Ancestry | search.cpp:146-151 | the chain of predecessors of a state with a cost is non-empty and ends at that state |
| Search.AncestryIsWalk | search.cpp:146-151 | the start followed by the predecessor chain is a walk along reported successors |
| Search.WalksStayRepresented | search.cpp:112-142 | when all states with a cost are expanded, every walk from one stays among them |
| Search.ClosedSetHasNoGoal | search.cpp:112-142 | an exhausted frontier means no goal state is reachable from the start |
| Search.GoalPath | search.cpp:144-152 | the reconstructed path runs from the start to the goal state; it is `[start, start]` when the start itself is the goal |
| Search.AStar | search.cpp:99-155 | a non-empty result starts at the start state and ends at a goal state, follows reported successors (or is `[start, start]` when the start is a goal), and after the loop ends the result is empty exactly when no goal state is reachable |
| Solver.SokobanCloses | game.cpp:242-261 | the puzzle's members are defined on wall-framed states, and their successors are wall-framed |
| Solver.SokobanEdge | game.cpp:242-261 | a search edge of the puzzle is exactly a successor that `get_neighbors` reports |
| Solver.Solve | search.cpp:99-155 | `A_star` on a wall-framed level: a solved end state, a path along `get_neighbors`, and an empty result after the loop ends exactly when no solved state is reachable |

## Left out

- Terminal interaction (`main`, `action_input`), `board_from_file` and the progress printing inside `A_star` with its `best` variable are input and output only.
- Raw-pointer identity, `new`/`memcpy` copies and the leaked duplicates become arena indices and values.
- `std::hash` and the XOR combination become an arbitrary function `hash` passed in. Only "equal states hash alike" is used.
- Boost's Fibonacci heap becomes a sequence viewed as a multiset. Its tie-breaking among equal priorities is not modelled: the first least entry is popped.
- Doubles and `INFINITY` become `Cost`, a whole number or infinity. Every cost and distance the source forms is integral.
- `int` overflow in indices, lengths and costs is not modelled. Integers are unbounded.
- The estimate `A_star` is given is an arbitrary function parameter. The search proofs do not depend on it.
- heuristic.cpp and `SimpleHeuristic` are not part of this model.
- The missing NUL terminator of sokoban.c's `board_to_string` is left out. The model produces the `(w + 1) * h` characters it writes.
- `board_from_string` on text with no newline: the source computes a width from a null pointer. The model rejects the text with `NoNewline`.
- A NUL inside the text cannot occur in a C string. It is excluded by a precondition.
- Search.AStar: runs at most `fuel` iterations of the main loop instead of an unbounded `while`. When the fuel runs out it returns an empty path with `finished` false.
- Search.AStar: is stated for wall-framed levels (`Enclosed`), where every unchecked read is in bounds. The source can read out of bounds on other levels, for example when a box sits on, or is pushed onto, the border.
- Search.AStar: promises a walk along reported successors rather than naming the predecessor map. The predecessor links are the recorded edges behind that walk, and optimality of the path is not claimed.
- Puzzle.IsActionLegal: requires `PushReadSafe`, since the source reads the cell beyond a box without a bounds check.
- Puzzle.TakeAction: requires a legal action, since the source asserts it.
- Puzzle.IsObviouslyUnsolvable: requires every plain box to lie off the border, since the source reads its four neighbours without a bounds check.
- Puzzle.IsObviouslyUnsolvableScan: requires the same, for the same unchecked reads.
- Puzzle.LodgedBox: requires the same, for the same unchecked reads.
- Codec.BoardFromString: cells the text never writes (the player's cell, and rows beyond the text) hold whatever the parameter `uninit` says for their array slot, standing in for uninitialised memory.

## Findings

| source | as written | input that shows it | evidently intended | confidence | as-written member | corrected member |
|---|---|---|---|---|---|---|
| io.cpp:66 (also sokoban.c:215) | the height is `len / width`, which counts the newline characters as cells, so it is right only when the board has fewer rows than columns | the text `"x\n"` of a 1-by-1 board parses as 1 wide and 2 high; the second row is uninitialised memory | the height is the number of lines, `len / (width + 1)` | not executed | Codec.HeightOvershoot | Codec.RoundTripCorrected |
