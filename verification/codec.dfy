/**
 * The text board format of io.cpp (and its C copy in sokoban.c): one line per
 * row, each row followed by a newline, one character per cell, with the
 * player's character written over the cell the player stands on.
 */
module Codec {
  import opened Wrappers
  import opened Arith
  import opened Grid
  import opened Puzzle

  /** The character table `field_chars_t`: one character per field, plus the player. */
  datatype FieldChars = FieldChars(empty: char, wall: char, box: char, boxOnGoal: char, goal: char, player: char)

  /** The default table `field_chars`. */
  const Chars := FieldChars(' ', '#', 'O', '0', '.', 'x')

  /** The character a field is rendered as. */
  function CharOf(f: Field): (r: char)
    ensures r != '\n' && r != '\0' && r != Chars.player
  {
    match f
    case Empty => Chars.empty
    case Wall => Chars.wall
    case Box => Chars.box
    case BoxOnGoal => Chars.boxOnGoal
    case Goal => Chars.goal
  }

  /** The field a character stands for, if it stands for one (the parser's if-chain). */
  function FieldOf(c: char): (r: Option<Field>)
    ensures r.Some? ==> CharOf(r.value) == c
    ensures r.None? ==> forall f :: CharOf(f) != c
  {
    if c == Chars.empty then Some(Empty)
    else if c == Chars.wall then Some(Wall)
    else if c == Chars.box then Some(Box)
    else if c == Chars.boxOnGoal then Some(BoxOnGoal)
    else if c == Chars.goal then Some(Goal)
    else None
  }

  /** The character map is injective, so every rendered field reads back as itself. */
  lemma FieldOfCharOf(f: Field)
    ensures FieldOf(CharOf(f)) == Some(f)
  {
  }

  /** Position of cell `c` in the text of a board `w` cells wide. */
  function TextIndex(w: int, c: Coord): int
  {
    (w + 1) * c.y + c.x
  }

  /** The cell the text position `i` falls on (column `w` is the newline). */
  function PosOf(w: int, i: int): Coord
    requires 0 <= w
  {
    Coord(i % (w + 1), i / (w + 1))
  }

  /** Cells map into the text and back. */
  lemma TextCell(w: int, h: int, c: Coord)
    requires 0 <= c.x < w && 0 <= c.y < h
    ensures 0 <= TextIndex(w, c) < (w + 1) * h
    ensures PosOf(w, TextIndex(w, c)) == c
  {
    DivMod(c.y, c.x, w + 1);
    RowMajorBound(c.x, c.y, w + 1, h);
  }

  /** Text positions map onto rows and back. */
  lemma TextPos(w: int, h: int, i: int)
    requires 0 <= w && 0 <= i < (w + 1) * h
    ensures 0 <= PosOf(w, i).y < h
    ensures TextIndex(w, PosOf(w, i)) == i
  {
    DivUpper(i, w + 1, h);
  }

  /** The character `board_to_string` writes at text position `i`. */
  function CharAt(g: Game, i: int): char
    requires WellFormed(g.board) && 0 <= i < (g.board.dimensions.x + 1) * g.board.dimensions.y
  {
    var w := g.board.dimensions.x;
    if i % (w + 1) == w then '\n'
    else
      var pos := PosOf(w, i);
      TextPos(w, g.board.dimensions.y, i);
      if pos == g.player then Chars.player else CharOf(GetField(g.board, pos))
  }

  /** Text `r` shows cell `c` of `g`: the player's character on the player, the field's otherwise. */
  predicate ShowsCell(g: Game, r: string, c: Coord)
    requires WellFormed(g.board) && InBounds(g.board, c)
  {
    var j := TextIndex(g.board.dimensions.x, c);
    0 <= j < |r| && r[j] == (if c == g.player then Chars.player else CharOf(GetField(g.board, c)))
  }

  /**
   * The text of `board_to_string`, without the terminating NUL: (w + 1) * h
   * characters, a newline exactly at the end of each row, every cell shown.
   */
  function BoardToString(g: Game): (r: string)
    requires WellFormed(g.board)
    ensures |r| == (g.board.dimensions.x + 1) * g.board.dimensions.y
    ensures forall i :: 0 <= i < |r| ==> (r[i] == '\n' <==> i % (g.board.dimensions.x + 1) == g.board.dimensions.x)
    ensures forall c :: InBounds(g.board, c) ==> ShowsCell(g, r, c)
    ensures '\0' !in r
  {
    var w, h := g.board.dimensions.x, g.board.dimensions.y;
    MulLe(0, h, w + 1);
    var r := seq((w + 1) * h, i requires 0 <= i < (w + 1) * h => CharAt(g, i));
    RenderFacts(g, r);
    r
  }

  lemma RenderFacts(g: Game, r: string)
    requires WellFormed(g.board)
    requires |r| == (g.board.dimensions.x + 1) * g.board.dimensions.y
    requires forall i :: 0 <= i < |r| ==> r[i] == CharAt(g, i)
    ensures forall i :: 0 <= i < |r| ==> (r[i] == '\n' <==> i % (g.board.dimensions.x + 1) == g.board.dimensions.x)
    ensures forall c :: InBounds(g.board, c) ==> ShowsCell(g, r, c)
    ensures '\0' !in r
  {
    var w, h := g.board.dimensions.x, g.board.dimensions.y;
    forall c | InBounds(g.board, c)
      ensures ShowsCell(g, r, c)
    {
      TextCell(w, h, c);
      assert r[TextIndex(w, c)] == CharAt(g, TextIndex(w, c));
    }
  }

  /** Why `board_from_string` gives up (each is an `assert` in the source). */
  datatype ParseError =
    | NoNewline               // `strchr` finds no newline
    | EmptyFirstLine          // the first line is empty
    | RaggedLength            // the length is not a multiple of width + 1
    | MissingNewline(at: nat) // a row runs past the width
    | UnknownChar(at: nat)    // a character outside the table

  /** Index of the first newline, as `strchr` finds it. */
  function FirstNewline(s: string): (r: Option<nat>)
    ensures r.None? <==> '\n' !in s
    ensures r.Some? ==> r.value < |s| && s[r.value] == '\n' && '\n' !in s[..r.value]
  {
    if |s| == 0 then None
    else if s[0] == '\n' then Some(0)
    else match FirstNewline(s[1..])
      case None => None
      case Some(k) =>
        assert s[1..][..k] == s[1..k + 1];
        assert s[..k + 1] == [s[0]] + s[1..k + 1];
        Some(k + 1)
  }

  /** The checks on the first line and the length; the width on success. */
  function Header(s: string): (r: Result<nat, ParseError>)
    ensures r == Failure(NoNewline) <==> '\n' !in s
    ensures r == Failure(EmptyFirstLine) <==> |s| > 0 && s[0] == '\n'
    ensures r == Failure(RaggedLength) <==> exists w: nat :: FirstLine(s, w) && w > 0 && |s| % (w + 1) != 0
    ensures r.Success? ==> FirstLine(s, r.value) && r.value > 0 && |s| % (r.value + 1) == 0
    ensures (exists w: nat :: FirstLine(s, w) && w > 0 && |s| % (w + 1) == 0) ==> r.Success?
  {
    match FirstNewline(s)
    case None => Failure(NoNewline)
    case Some(w) =>
      assert FirstLine(s, w);
      FirstLineUnique(s, w);
      assert s[w] in s;
      assert w > 0 ==> s[..w][0] == s[0] && s[0] != '\n';
      if w == 0 then Failure(EmptyFirstLine)
      else if |s| % (w + 1) != 0 then Failure(RaggedLength)
      else Success(w)
  }

  /** The first line of `s` has `w` characters: a newline at `w`, none before. */
  predicate FirstLine(s: string, w: nat)
  {
    w < |s| && s[w] == '\n' && '\n' !in s[..w]
  }

  lemma FirstLineUnique(s: string, w: nat)
    requires FirstLine(s, w)
    ensures forall v: nat :: FirstLine(s, v) ==> v == w
  {
  }

  /** The shape the parsing loop needs: a positive width, whole rows, and room for them. */
  predicate Layout(s: string, w: nat, h: nat)
  {
    0 < w && |s| % (w + 1) == 0 && |s| / (w + 1) <= h
  }

  /** Every cell position of the text lies inside a w-by-h grid. */
  lemma CellInBounds(s: string, w: nat, h: nat, i: nat)
    requires Layout(s, w, h) && i < |s| && i % (w + 1) < w
    ensures 0 <= PosOf(w, i).x < w && 0 <= PosOf(w, i).y < h
  {
    DivUpper(i, w + 1, |s| / (w + 1));
  }

  /** Position `i` breaks the format: a row too long, or a character outside the table. */
  predicate Bad(s: string, w: nat, i: nat)
    requires 0 < w && i < |s|
  {
    if i % (w + 1) == w then s[i] != '\n' else s[i] != Chars.player && FieldOf(s[i]).None?
  }

  /** The error reported for a bad position. */
  function ErrorAt(w: nat, i: nat): ParseError
  {
    if i % (w + 1) == w then MissingNewline(i) else UnknownChar(i)
  }

  /** `j` is the first bad position at or after `i`. */
  predicate FirstBad(s: string, w: nat, i: nat, j: nat)
    requires 0 < w
  {
    i <= j < |s| && Bad(s, w, j) && forall k :: i <= k < j ==> !Bad(s, w, k)
  }

  /** A player character at a cell position `j`. */
  predicate IsPlayerAt(s: string, w: nat, j: nat)
    requires j < |s|
  {
    j % (w + 1) < w && s[j] == Chars.player
  }

  /** No player character at or after position `i`. */
  predicate NoPlayerFrom(s: string, w: nat, i: nat)
  {
    forall j :: i <= j < |s| ==> !IsPlayerAt(s, w, j)
  }

  /** The field the loop leaves in cell `c` when it starts at `i` with `before` there. */
  function Written(s: string, w: nat, i: nat, c: Coord, before: Field): Field
  {
    var j := TextIndex(w, c);
    if i <= j < |s| && FieldOf(s[j]).Some? then FieldOf(s[j]).value else before
  }

  /** One iteration of the loop of `board_from_string`, at text position `i`. */
  function Step(s: string, w: nat, i: nat, st: Game): (r: Result<Game, ParseError>)
    requires i < |s| && WellFormed(st.board) && st.board.dimensions.x == w
    requires Layout(s, w, st.board.dimensions.y)
    ensures r.Failure? <==> Bad(s, w, i)
    ensures r.Failure? ==> r.error == ErrorAt(w, i)
    ensures r.Success? ==> WellFormed(r.value.board) && r.value.board.dimensions == st.board.dimensions
  {
    var pos := PosOf(w, i);
    if pos.x >= w then
      if s[i] != '\n' then Failure(MissingNewline(i)) else Success(st)
    else if s[i] == Chars.player then
      Success(Game(pos, st.board))
    else
      match FieldOf(s[i])
      case None => Failure(UnknownChar(i))
      case Some(f) =>
        CellInBounds(s, w, st.board.dimensions.y, i);
        Success(Game(st.player, SetField(st.board, pos, f)))
  }

  /** The loop of `board_from_string` from text position `i` on, writing into `st`. */
  function Scan(s: string, w: nat, i: nat, st: Game): (r: Result<Game, ParseError>)
    requires i <= |s| && WellFormed(st.board) && st.board.dimensions.x == w
    requires Layout(s, w, st.board.dimensions.y)
    ensures r.Success? ==> WellFormed(r.value.board) && r.value.board.dimensions == st.board.dimensions
    decreases |s| - i
  {
    if i == |s| then Success(st)
    else
      match Step(s, w, i, st)
      case Failure(e) => Failure(e)
      case Success(next) => Scan(s, w, i + 1, next)
  }

  /** The loop fails exactly when a bad position follows, and reports the first one. */
  lemma {:induction false} ScanFailure(s: string, w: nat, i: nat, st: Game)
    requires i <= |s| && WellFormed(st.board) && st.board.dimensions.x == w
    requires Layout(s, w, st.board.dimensions.y)
    ensures Scan(s, w, i, st).Failure? <==> exists j :: i <= j < |s| && Bad(s, w, j)
    ensures Scan(s, w, i, st).Failure? ==> exists j :: FirstBad(s, w, i, j) && Scan(s, w, i, st).error == ErrorAt(w, j)
    decreases |s| - i
  {
    if i < |s| {
      if Bad(s, w, i) {
        assert FirstBad(s, w, i, i);
      } else {
        ScanFailure(s, w, i + 1, Step(s, w, i, st).value);
      }
    }
  }

  /** The player ends at `p`: at the last player character from `i` on, or at `before` when there is none. */
  predicate PlayerFrom(s: string, w: nat, i: nat, before: Coord, p: Coord)
  {
    || (NoPlayerFrom(s, w, i) && p == before)
    || exists j :: i <= j < |s| && IsPlayerAt(s, w, j) && NoPlayerFrom(s, w, j + 1) && p == PosOf(w, j)
  }

  /** One step writes at most the cell under position `i`, and only a field character. */
  lemma StepCell(s: string, w: nat, i: nat, st: Game, c: Coord)
    requires i < |s| && WellFormed(st.board) && st.board.dimensions.x == w
    requires Layout(s, w, st.board.dimensions.y) && !Bad(s, w, i)
    requires InBounds(st.board, c)
    ensures Written(s, w, i + 1, c, GetField(Step(s, w, i, st).value.board, c)) == Written(s, w, i, c, GetField(st.board, c))
  {
    var j := TextIndex(w, c);
    TextCell(w, st.board.dimensions.y, c);
    assert TextIndex(w, PosOf(w, i)) == i;
  }

  /** One step moves the player exactly when it reads a player character. */
  lemma StepPlayer(s: string, w: nat, i: nat, st: Game)
    requires i < |s| && WellFormed(st.board) && st.board.dimensions.x == w
    requires Layout(s, w, st.board.dimensions.y) && !Bad(s, w, i)
    ensures Step(s, w, i, st).value.player == if IsPlayerAt(s, w, i) then PosOf(w, i) else st.player
  {
  }

  /** On success every cell holds the last field character written to it, or what it held before. */
  lemma {:induction false} ScanCells(s: string, w: nat, i: nat, st: Game)
    requires i <= |s| && WellFormed(st.board) && st.board.dimensions.x == w
    requires Layout(s, w, st.board.dimensions.y)
    ensures Scan(s, w, i, st).Success? ==> forall c :: InBounds(st.board, c) ==>
      GetField(Scan(s, w, i, st).value.board, c) == Written(s, w, i, c, GetField(st.board, c))
    decreases |s| - i
  {
    if i < |s| && !Bad(s, w, i) {
      var next := Step(s, w, i, st).value;
      ScanCells(s, w, i + 1, next);
      forall c | InBounds(st.board, c)
        ensures Written(s, w, i + 1, c, GetField(next.board, c)) == Written(s, w, i, c, GetField(st.board, c))
      {
        StepCell(s, w, i, st, c);
      }
    }
  }

  /** On success the player stands where the last player character put it. */
  lemma {:induction false} ScanPlayer(s: string, w: nat, i: nat, st: Game)
    requires i <= |s| && WellFormed(st.board) && st.board.dimensions.x == w
    requires Layout(s, w, st.board.dimensions.y)
    ensures Scan(s, w, i, st).Success? ==> PlayerFrom(s, w, i, st.player, Scan(s, w, i, st).value.player)
    decreases |s| - i
  {
    if i < |s| && !Bad(s, w, i) {
      var next := Step(s, w, i, st).value;
      ScanPlayer(s, w, i + 1, next);
      StepPlayer(s, w, i, st);
    }
  }

  /**
   * `g` holds what the text says: each cell the text gives a field character,
   * the uninitialised value `uninit` of its array slot otherwise (the player's
   * cell and any row past the text), and the player at the last player
   * character, or at the origin when there is none.
   */
  ghost predicate Decodes(s: string, w: nat, g: Game, uninit: nat -> Field)
    requires WellFormed(g.board)
  {
    && (forall c :: InBounds(g.board, c) ==> GetField(g.board, c) == Written(s, w, 0, c, uninit(GetIndex(g.board, c))))
    && PlayerFrom(s, w, 0, Coord(0, 0), g.player)
  }

  /** The state the parser starts from: the player at the origin, every slot uninitialised. */
  function Blank(w: nat, h: nat, uninit: nat -> Field): (r: Game)
    ensures WellFormed(r.board) && r.board.dimensions == Coord(w, h) && r.player == Coord(0, 0)
    ensures forall c :: InBounds(r.board, c) ==> GetField(r.board, c) == uninit(GetIndex(r.board, c))
  {
    MulLe(0, h, w);
    var b := Board(Coord(w, h), seq(w * h, i requires 0 <= i => uninit(i)));
    assert forall c :: InBounds(b, c) ==> b.fields[GetIndex(b, c)] == uninit(GetIndex(b, c));
    Game(Coord(0, 0), b)
  }

  /** A successful loop from the blank state decodes the text. */
  lemma ScanDecodes(s: string, w: nat, h: nat, uninit: nat -> Field)
    requires Layout(s, w, h)
    ensures var r := Scan(s, w, 0, Blank(w, h, uninit));
      r.Success? ==> WellFormed(r.value.board) && r.value.board.dimensions == Coord(w, h) && Decodes(s, w, r.value, uninit)
  {
    var init := Blank(w, h, uninit);
    ScanCells(s, w, 0, init);
    ScanPlayer(s, w, 0, init);
    var r := Scan(s, w, 0, init);
    if r.Success? {
      forall c | InBounds(r.value.board, c)
        ensures GetField(r.value.board, c) == Written(s, w, 0, c, uninit(GetIndex(r.value.board, c)))
      {
        assert GetField(init.board, c) == uninit(GetIndex(init.board, c));
      }
    }
  }

  /** The parsing loop over a blank w-by-h grid. */
  function Parse(s: string, w: nat, h: nat, uninit: nat -> Field): (r: Result<Game, ParseError>)
    requires Layout(s, w, h)
    ensures r.Success? <==> forall j :: 0 <= j < |s| ==> !Bad(s, w, j)
    ensures r.Failure? ==> exists j :: FirstBad(s, w, 0, j) && r.error == ErrorAt(w, j)
    ensures r.Success? ==> WellFormed(r.value.board) && r.value.board.dimensions == Coord(w, h) && Decodes(s, w, r.value, uninit)
  {
    ScanFailure(s, w, 0, Blank(w, h, uninit));
    ScanDecodes(s, w, h, uninit);
    Scan(s, w, 0, Blank(w, h, uninit))
  }

  /**
   * `board_from_string` as written: the header checks, then a height of
   * len / width (not len / (width + 1)), then the loop.
   */
  function BoardFromString(s: string, uninit: nat -> Field): (r: Result<Game, ParseError>)
    requires '\0' !in s  // the text is a C string
    ensures Header(s).Failure? ==> r.Failure? && r.error == Header(s).error
    ensures Header(s).Success? ==> (r.Success? <==> forall j :: 0 <= j < |s| ==> !Bad(s, Header(s).value, j))
    ensures Header(s).Success? && r.Failure? ==> exists j :: FirstBad(s, Header(s).value, 0, j) && r.error == ErrorAt(Header(s).value, j)
    ensures r.Success? ==> Header(s).Success? && WellFormed(r.value.board)
    ensures r.Success? ==> r.value.board.dimensions == Coord(Header(s).value, |s| / Header(s).value)
    ensures r.Success? ==> Decodes(s, Header(s).value, r.value, uninit)
  {
    match Header(s)
    case Failure(e) => Failure(e)
    case Success(w) =>
      DivAntitone(|s|, w);
      Parse(s, w, |s| / w, uninit)
  }

  /**
   * `board_from_string` with the height it evidently intends: the number of
   * lines, len / (width + 1).
   */
  function BoardFromStringCorrected(s: string, uninit: nat -> Field): (r: Result<Game, ParseError>)
    requires '\0' !in s  // the text is a C string
    ensures Header(s).Failure? ==> r.Failure? && r.error == Header(s).error
    ensures Header(s).Success? ==> (r.Success? <==> forall j :: 0 <= j < |s| ==> !Bad(s, Header(s).value, j))
    ensures Header(s).Success? && r.Failure? ==> exists j :: FirstBad(s, Header(s).value, 0, j) && r.error == ErrorAt(Header(s).value, j)
    ensures r.Success? ==> Header(s).Success? && WellFormed(r.value.board)
    ensures r.Success? ==> r.value.board.dimensions == Coord(Header(s).value, |s| / (Header(s).value + 1))
    ensures r.Success? ==> Decodes(s, Header(s).value, r.value, uninit)
  {
    match Header(s)
    case Failure(e) => Failure(e)
    case Success(w) => Parse(s, w, |s| / (w + 1), uninit)
  }

  /** The text of a board at least one cell wide and high passes every format check. */
  lemma RenderedTextIsWellFormed(g: Game)
    requires WellFormed(g.board) && 1 <= g.board.dimensions.x && 1 <= g.board.dimensions.y
    ensures Header(BoardToString(g)) == Success(g.board.dimensions.x)
    ensures |BoardToString(g)| / (g.board.dimensions.x + 1) == g.board.dimensions.y
    ensures forall j :: 0 <= j < |BoardToString(g)| ==> !Bad(BoardToString(g), g.board.dimensions.x, j)
  {
    var s, w, h := BoardToString(g), g.board.dimensions.x, g.board.dimensions.y;
    MulLe(1, h, w + 1);
    DivMod(0, w, w + 1);
    forall k | 0 <= k < w
      ensures s[..w][k] != '\n'
    {
      DivMod(0, k, w + 1);
    }
    assert FirstLine(s, w);
    DivMod(h, 0, w + 1);
    forall j | 0 <= j < |s|
      ensures !Bad(s, w, j)
    {
      if j % (w + 1) != w {
        TextPos(w, h, j);
        assert ShowsCell(g, s, PosOf(w, j));
      }
    }
  }

  /** Player characters in the text stand exactly at the player's cell. */
  lemma RenderedPlayer(g: Game)
    requires WellFormed(g.board)
    ensures forall j :: 0 <= j < |BoardToString(g)| && IsPlayerAt(BoardToString(g), g.board.dimensions.x, j) ==>
      InBounds(g.board, g.player) && PosOf(g.board.dimensions.x, j) == g.player
    ensures InBounds(g.board, g.player) ==> IsPlayerAt(BoardToString(g), g.board.dimensions.x, TextIndex(g.board.dimensions.x, g.player))
  {
    var s, w, h := BoardToString(g), g.board.dimensions.x, g.board.dimensions.y;
    forall j | 0 <= j < |s| && IsPlayerAt(s, w, j)
      ensures InBounds(g.board, g.player) && PosOf(w, j) == g.player
    {
      TextPos(w, h, j);
      assert ShowsCell(g, s, PosOf(w, j));
    }
    if InBounds(g.board, g.player) {
      TextCell(w, h, g.player);
      assert ShowsCell(g, s, g.player);
    }
  }

  /** Reading the text of `g` into a grid of at least its height recovers `g` on its cells. */
  lemma ReadBack(g: Game, h: nat, uninit: nat -> Field)
    requires WellFormed(g.board) && 1 <= g.board.dimensions.x && 1 <= g.board.dimensions.y <= h
    ensures Layout(BoardToString(g), g.board.dimensions.x, h)
    ensures var r := Parse(BoardToString(g), g.board.dimensions.x, h, uninit);
      && r.Success?
      && r.value.player == (if InBounds(g.board, g.player) then g.player else Coord(0, 0))
      && (forall c :: InBounds(g.board, c) && c != g.player ==> GetField(r.value.board, c) == GetField(g.board, c))
      && (InBounds(g.board, g.player) ==> GetField(r.value.board, g.player) == uninit(GetIndex(r.value.board, g.player)))
  {
    var s, w := BoardToString(g), g.board.dimensions.x;
    RenderedTextIsWellFormed(g);
    RenderedPlayer(g);
    var r := Parse(s, w, h, uninit);
    forall c | InBounds(g.board, c)
      ensures GetField(r.value.board, c) == if c == g.player then uninit(GetIndex(r.value.board, c)) else GetField(g.board, c)
    {
      TextCell(w, g.board.dimensions.y, c);
      assert ShowsCell(g, s, c);
      FieldOfCharOf(GetField(g.board, c));
    }
    if InBounds(g.board, g.player) {
      assert !NoPlayerFrom(s, w, 0);
    }
  }

  /** With fewer rows than columns, `board_from_string` reads back what `board_to_string` wrote. */
  lemma RoundTrip(g: Game, uninit: nat -> Field)
    requires WellFormed(g.board) && 1 <= g.board.dimensions.y < g.board.dimensions.x
    ensures var r := BoardFromString(BoardToString(g), uninit);
      && r.Success?
      && r.value.board.dimensions == g.board.dimensions
      && r.value.player == (if InBounds(g.board, g.player) then g.player else Coord(0, 0))
      && (forall c :: InBounds(g.board, c) && c != g.player ==> GetField(r.value.board, c) == GetField(g.board, c))
      && (InBounds(g.board, g.player) ==> GetField(r.value.board, g.player) == uninit(GetIndex(g.board, g.player)))
  {
    var w, h := g.board.dimensions.x, g.board.dimensions.y;
    RenderedTextIsWellFormed(g);
    RowExact(w, h);
    ReadBack(g, h, uninit);
  }

  /**
   * With at least as many rows as columns, `board_from_string` reports more
   * rows than the text has: the extra rows are uninitialised memory.
   */
  lemma HeightOvershoot(g: Game, uninit: nat -> Field)
    requires WellFormed(g.board) && 1 <= g.board.dimensions.x <= g.board.dimensions.y
    ensures var r := BoardFromString(BoardToString(g), uninit);
      r.Success? && r.value.board.dimensions.y > g.board.dimensions.y
  {
    var w, h := g.board.dimensions.x, g.board.dimensions.y;
    RenderedTextIsWellFormed(g);
    RowOvershoot(w, h);
    ReadBack(g, (w + 1) * h / w, uninit);
  }

  /** The smallest witness: a 1-by-1 level "x\n" parses as 1 wide and 2 high. */
  lemma OneByOneReadsTwoRows(uninit: nat -> Field)
    ensures BoardFromString("x\n", uninit).Success?
    ensures BoardFromString("x\n", uninit).value.board.dimensions == Coord(1, 2)
  {
    var g := Game(Coord(0, 0), Board(Coord(1, 1), [Empty]));
    assert BoardToString(g) == "x\n";
    HeightOvershoot(g, uninit);
  }

  /** The corrected parser reads back every board at least one cell wide and high. */
  lemma RoundTripCorrected(g: Game, uninit: nat -> Field)
    requires WellFormed(g.board) && 1 <= g.board.dimensions.x && 1 <= g.board.dimensions.y
    ensures var r := BoardFromStringCorrected(BoardToString(g), uninit);
      && r.Success?
      && r.value.board.dimensions == g.board.dimensions
      && r.value.player == (if InBounds(g.board, g.player) then g.player else Coord(0, 0))
      && (forall c :: InBounds(g.board, c) && c != g.player ==> GetField(r.value.board, c) == GetField(g.board, c))
      && (InBounds(g.board, g.player) ==> GetField(r.value.board, g.player) == uninit(GetIndex(g.board, g.player)))
  {
    RenderedTextIsWellFormed(g);
    ReadBack(g, g.board.dimensions.y, uninit);
  }
}
