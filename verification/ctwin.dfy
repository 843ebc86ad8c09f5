/**
 * The C copy of the game logic and the codec (sokoban.c), written as the
 * imperative loops it uses and shown to compute what the functional model of
 * game.cpp and io.cpp computes.
 */
module CTwin {
  import opened Wrappers
  import opened Arith
  import opened Grid
  import opened Puzzle
  import opened Codec

  /** `is_action_legal`: the off-board, free-cell and push rules of the C++ member. */
  method IsActionLegal(state: Game, action: Coord) returns (r: bool)
    requires WellFormed(state.board) && PushReadSafe(state, action)
    ensures r == Puzzle.IsActionLegal(state, action)
  {
    var newPos := Add(state.player, action);
    if newPos.x >= state.board.dimensions.x || newPos.y >= state.board.dimensions.y || 0 > newPos.x || 0 > newPos.y {
      return false;
    }
    var neighbor := GetField(state.board, newPos);
    if neighbor == Empty || neighbor == Goal {
      return true;
    }
    if neighbor == Box || neighbor == BoxOnGoal {
      var beyond := GetField(state.board, Add(newPos, action));
      if beyond == Empty || beyond == Goal {
        return true;
      }
    }
    return false;
  }

  /** `is_goal_state`: column by column, stop at the first cell that is not settled. */
  method IsGoalState(state: Game) returns (r: bool)
    requires WellFormed(state.board)
    ensures r == Puzzle.IsGoal(state)
  {
    var w, h := state.board.dimensions.x, state.board.dimensions.y;
    var x := 0;
    while x < w
      invariant 0 <= x <= w
      invariant forall x', y' :: 0 <= x' < x && 0 <= y' < h ==> Settled(GetField(state.board, Coord(x', y')))
    {
      var y := 0;
      while y < h
        invariant 0 <= y <= h
        invariant forall x', y' :: 0 <= x' < x && 0 <= y' < h ==> Settled(GetField(state.board, Coord(x', y')))
        invariant forall y' :: 0 <= y' < y ==> Settled(GetField(state.board, Coord(x, y')))
      {
        var field := GetField(state.board, Coord(x, y));
        if field != Empty && field != Wall && field != BoxOnGoal {
          return false;
        }
        y := y + 1;
      }
      x := x + 1;
    }
    return true;
  }

  /**
   * `take_action` on a copy of the state: move the player, lift a pushed box
   * and drop it one cell further. An illegal action is excluded, as the
   * source asserts it away.
   */
  method TakeAction(state: Game, action: Coord) returns (next: Game)
    requires WellFormed(state.board) && PushReadSafe(state, action) && Puzzle.IsActionLegal(state, action)
    ensures next == Puzzle.TakeAction(state, action).game
    ensures BoxCount(next.board) == BoxCount(state.board)
  {
    var neighbor := Add(state.player, action);
    var board := state.board;
    var field := GetField(board, neighbor);
    if field == Box {
      board := SetField(board, neighbor, Empty);
    } else if field == BoxOnGoal {
      board := SetField(board, neighbor, Goal);
    }
    if field == Box || field == BoxOnGoal {
      var beyond := Add(neighbor, action);
      PushFacts(state.board, board, neighbor, beyond);
      var beyondField := GetField(board, beyond);
      if beyondField == Goal {
        board := SetField(board, beyond, BoxOnGoal);
      } else if beyondField == Empty {
        board := SetField(board, beyond, Box);
      } else {
        assert false;
      }
    }
    next := Game(neighbor, board);
  }

  /** `board_to_string`: the first (w + 1) * h characters it writes. */
  method BoardToString(state: Game) returns (out: string)
    requires WellFormed(state.board)
    ensures out == Codec.BoardToString(state)
  {
    var w, h := state.board.dimensions.x, state.board.dimensions.y;
    var rowLen := w + 1;
    var len := rowLen * h;
    MulLe(0, h, rowLen);
    out := [];
    var i := 0;
    while i < len
      invariant 0 <= i <= len && |out| == i
      invariant forall k :: 0 <= k < i ==> out[k] == CharAt(state, k)
    {
      if i % rowLen == w {
        out := out + ['\n'];
      } else {
        var pos := Coord(i % rowLen, i / rowLen);
        TextPos(w, h, i);
        var field := GetField(state.board, pos);
        var c;
        if pos.x == state.player.x && pos.y == state.player.y {
          c := Chars.player;
        } else if field == Empty {
          c := Chars.empty;
        } else if field == Wall {
          c := Chars.wall;
        } else if field == Box {
          c := Chars.box;
        } else if field == BoxOnGoal {
          c := Chars.boxOnGoal;
        } else {
          c := Chars.goal;
        }
        out := out + [c];
      }
      i := i + 1;
    }
    assert forall k :: 0 <= k < len ==> Codec.BoardToString(state)[k] == CharAt(state, k);
  }

  /**
   * `board_from_string`: the header checks, then one pass over the text
   * writing into a grid whose slots hold `uninit` until written.
   */
  method BoardFromString(str: string, uninit: nat -> Field) returns (r: Result<Game, ParseError>)
    requires '\0' !in str
    ensures r == Codec.BoardFromString(str, uninit)
  {
    var len := |str|;
    var newline := FirstNewline(str);
    if newline.None? {
      return Failure(NoNewline);
    }
    var width := newline.value;
    if width == 0 {
      return Failure(EmptyFirstLine);
    }
    if len % (width + 1) != 0 {
      return Failure(RaggedLength);
    }
    var height := len / width;
    DivAntitone(len, width);
    var state := Blank(width, height, uninit);
    ghost var start := state;
    assert Header(str) == Success(width);
    assert Codec.BoardFromString(str, uninit) == Scan(str, width, 0, start);
    var i := 0;
    while i < len
      invariant 0 <= i <= len
      invariant WellFormed(state.board) && state.board.dimensions == Coord(width, height)
      invariant Scan(str, width, i, state) == Scan(str, width, 0, start)
    {
      var pos := PosOf(width, i);
      if !(pos.x < width || str[i] == '\n') {
        assert Step(str, width, i, state) == Failure(MissingNewline(i));
        return Failure(MissingNewline(i));
      }
      var next := state;
      if pos.x < width {
        var field := str[i];
        if field == Chars.player {
          next := Game(pos, state.board);
        } else {
          var f := FieldOf(field);
          if f.None? {
            assert Step(str, width, i, state) == Failure(UnknownChar(i));
            return Failure(UnknownChar(i));
          }
          CellInBounds(str, width, height, i);
          next := Game(state.player, SetField(state.board, pos, f.value));
        }
      }
      assert Step(str, width, i, state) == Success(next);
      state := next;
      i := i + 1;
    }
    return Success(state);
  }
}
