/**
 * The kingdom_chess `Board`: an 8 x 8 grid of optional pieces,
 * `_grid[y][x]`, written one cell at a time.
 */
module Boards {
  import opened Common
  import opened Layout
  import opened Pieces
  import opened Text

  type Row = r: seq<Option<Piece>> | |r| == 8 witness [None, None, None, None, None, None, None, None]

  /** The value of `_grid`: eight rows (y) of eight cells (x). */
  type Grid = g: seq<Row> | |g| == 8 witness EmptyRows

  const EmptyRow: Row := [None, None, None, None, None, None, None, None]
  const EmptyRows: seq<Row> := [EmptyRow, EmptyRow, EmptyRow, EmptyRow, EmptyRow, EmptyRow, EmptyRow, EmptyRow]

  /** The grid of a new `Board()`: every cell empty. */
  function EmptyGrid(): (g: Grid)
    ensures forall p :: Cell(g, p) == None
  {
    EmptyRows
  }

  /** `board[pos]`. */
  function Cell(g: Grid, p: Position): Option<Piece> {
    g[p.y][p.x]
  }

  /** `board[pos] = piece`: that cell changes and no other. */
  function SetCell(g: Grid, p: Position, v: Option<Piece>): (r: Grid)
    ensures Cell(r, p) == v
    ensures forall q | q != p :: Cell(r, q) == Cell(g, q)
  {
    g[p.y := g[p.y][p.x := v]]
  }

  /** Two grids that agree on every square are equal. */
  lemma GridExtensionality(g1: Grid, g2: Grid)
    requires forall p :: Cell(g1, p) == Cell(g2, p)
    ensures g1 == g2
  {
    forall y | 0 <= y < 8
      ensures g1[y] == g2[y]
    {
      forall x | 0 <= x < 8
        ensures g1[y][x] == g2[y][x]
      {
        assert Cell(g1, Position(x, y)) == Cell(g2, Position(x, y));
      }
    }
  }

  /** `__eq__`: all 64 cells compared, x outer and y inner. */
  function SameCells(g1: Grid, g2: Grid): (r: bool)
    ensures r <==> g1 == g2
  {
    var r := forall x, y | 0 <= x < 8 && 0 <= y < 8 :: g1[y][x] == g2[y][x];
    if r then
      assert forall p :: Cell(g1, p) == Cell(g2, p);
      GridExtensionality(g1, g2);
      r
    else r
  }

  /** The 64 squares. */
  function AllPositions(): (s: set<Position>)
    ensures forall p :: p in s
  {
    var all := set x: Coord, y: Coord | 0 <= x < 8 && 0 <= y < 8 :: Position(x, y);
    assert forall p: Position :: p in all by {
      forall p: Position ensures p in all {
        assert Position(p.x, p.y) in all;
      }
    }
    all
  }

  /** The grid holding exactly the pieces of a mapping: the result of `from_mapping`. */
  function GridOfMapping(m: map<Position, Piece>): (g: Grid)
    ensures forall p :: Cell(g, p) == if p in m then Some(m[p]) else None
  {
    seq(8, y requires 0 <= y < 8 =>
      seq(8, x requires 0 <= x < 8 =>
        if Position(x, y) in m then Some(m[Position(x, y)]) else None))
  }

  /** `to_mapping`: exactly the occupied cells, each with its piece. */
  function MappingOf(g: Grid): (m: map<Position, Piece>)
    ensures forall p :: p in m <==> Cell(g, p).Some?
    ensures forall p | p in m :: m[p] == Cell(g, p).value
  {
    map p | p in AllPositions() && Cell(g, p).Some? :: Cell(g, p).value
  }

  /** Square p holds a piece. */
  predicate Occupied(g: Grid, p: Position) {
    Cell(g, p).Some?
  }

  /** p comes before q in row-major order (y outer, x inner). */
  predicate Before(p: Position, q: Position) {
    p.y < q.y || (p.y == q.y && p.x < q.x)
  }

  /** Square p is (x, y) or comes after it in row-major order. */
  predicate FromSquare(x: int, y: int, p: Position) {
    y < p.y || (y == p.y && x <= p.x)
  }

  /** The occupied squares from (x, y) on, in row-major order, each with its piece. */
  function ItemsFrom(g: Grid, x: Coord, y: nat): (s: seq<(Position, Piece)>)
    requires y <= 8
    ensures forall i | 0 <= i < |s| :: FromSquare(x, y, s[i].0) && Cell(g, s[i].0) == Some(s[i].1)
    ensures forall i, j | 0 <= i < j < |s| :: Before(s[i].0, s[j].0)
    ensures forall p {:trigger Occupied(g, p)} | Occupied(g, p) && FromSquare(x, y, p) ::
              exists i | 0 <= i < |s| :: s[i].0 == p
    decreases 8 - y, 8 - x
  {
    if y == 8 then []
    else
      var rest := if x == 7 then ItemsFrom(g, 0, y + 1) else ItemsFrom(g, x + 1, y);
      assert forall i | 0 <= i < |rest| :: rest[i].0 != Position(x, y);
      match g[y][x]
      case None =>
        ItemsSkip(g, x, y, rest);
        rest
      case Some(piece) =>
        ItemsPrepend(g, x, y, piece, rest);
        [(Position(x, y), piece)] + rest
  }

  /** An empty square (x, y) adds no entry: the entries after it are those from it on. */
  lemma ItemsSkip(g: Grid, x: Coord, y: Coord, rest: seq<(Position, Piece)>)
    requires g[y][x].None?
    requires forall p {:trigger Occupied(g, p)} | Occupied(g, p) && FromSquare(x, y, p) && p != Position(x, y) ::
               exists i | 0 <= i < |rest| :: rest[i].0 == p
    ensures forall p {:trigger Occupied(g, p)} | Occupied(g, p) && FromSquare(x, y, p) ::
              exists i | 0 <= i < |rest| :: rest[i].0 == p
  {
    forall p {:trigger Occupied(g, p)} | Occupied(g, p) && FromSquare(x, y, p)
      ensures exists i | 0 <= i < |rest| :: rest[i].0 == p
    {
      assert p != Position(x, y);
    }
  }

  /** The entry of an occupied square (x, y) goes in front of the entries after it. */
  lemma ItemsPrepend(g: Grid, x: Coord, y: Coord, piece: Piece, rest: seq<(Position, Piece)>)
    requires g[y][x] == Some(piece)
    requires forall i | 0 <= i < |rest| :: FromSquare(x, y, rest[i].0) && rest[i].0 != Position(x, y) &&
                                            Cell(g, rest[i].0) == Some(rest[i].1)
    requires forall i, j | 0 <= i < j < |rest| :: Before(rest[i].0, rest[j].0)
    requires forall p {:trigger Occupied(g, p)} | Occupied(g, p) && FromSquare(x, y, p) && p != Position(x, y) ::
               exists i | 0 <= i < |rest| :: rest[i].0 == p
    ensures var s := [(Position(x, y), piece)] + rest;
            forall i | 0 <= i < |s| :: FromSquare(x, y, s[i].0) && Cell(g, s[i].0) == Some(s[i].1)
    ensures var s := [(Position(x, y), piece)] + rest;
            forall i, j | 0 <= i < j < |s| :: Before(s[i].0, s[j].0)
    ensures var s := [(Position(x, y), piece)] + rest;
            forall p {:trigger Occupied(g, p)} | Occupied(g, p) && FromSquare(x, y, p) ::
              exists i | 0 <= i < |s| :: s[i].0 == p
  {
    var s := [(Position(x, y), piece)] + rest;
    forall i | 0 <= i < |rest| ensures s[i + 1] == rest[i] {
    }
    forall p {:trigger Occupied(g, p)} | Occupied(g, p) && FromSquare(x, y, p)
      ensures exists i | 0 <= i < |s| :: s[i].0 == p
    {
      if p == Position(x, y) {
        assert s[0].0 == p;
      } else {
        var i :| 0 <= i < |rest| && rest[i].0 == p;
        assert s[i + 1].0 == p;
      }
    }
  }

  /**
   * `to_mapping().items()` in the dict's iteration order: every occupied
   * square exactly once, in row-major order, each with its piece.
   */
  function Items(g: Grid): (s: seq<(Position, Piece)>)
    ensures forall i | 0 <= i < |s| :: Cell(g, s[i].0) == Some(s[i].1)
    ensures forall i, j | 0 <= i < j < |s| :: Before(s[i].0, s[j].0)
    ensures forall p {:trigger Occupied(g, p)} | Occupied(g, p) :: exists i | 0 <= i < |s| :: s[i].0 == p
  {
    ItemsFrom(g, 0, 0)
  }

  /** `Board.from_mapping(b.to_mapping()) == b`. */
  lemma FromMappingOfToMapping(g: Grid)
    ensures GridOfMapping(MappingOf(g)) == g
  {
    GridExtensionality(GridOfMapping(MappingOf(g)), g);
  }

  /** `Board.from_mapping(m).to_mapping() == m`. */
  lemma ToMappingOfFromMapping(m: map<Position, Piece>)
    ensures MappingOf(GridOfMapping(m)) == m
  {
  }

  /** `STARTING_BOARD_STATE`. */
  function StartingState(): map<Position, Piece> {
    map[
      Position(0, 0) := Piece(Rook, Black), Position(1, 0) := Piece(Knight, Black),
      Position(2, 0) := Piece(Bishop, Black), Position(3, 0) := Piece(Queen, Black),
      Position(4, 0) := Piece(King, Black), Position(5, 0) := Piece(Bishop, Black),
      Position(6, 0) := Piece(Knight, Black), Position(7, 0) := Piece(Rook, Black),
      Position(0, 1) := Piece(Pawn, Black), Position(1, 1) := Piece(Pawn, Black),
      Position(2, 1) := Piece(Pawn, Black), Position(3, 1) := Piece(Pawn, Black),
      Position(4, 1) := Piece(Pawn, Black), Position(5, 1) := Piece(Pawn, Black),
      Position(6, 1) := Piece(Pawn, Black), Position(7, 1) := Piece(Pawn, Black),
      Position(0, 6) := Piece(Pawn, White), Position(1, 6) := Piece(Pawn, White),
      Position(2, 6) := Piece(Pawn, White), Position(3, 6) := Piece(Pawn, White),
      Position(4, 6) := Piece(Pawn, White), Position(5, 6) := Piece(Pawn, White),
      Position(6, 6) := Piece(Pawn, White), Position(7, 6) := Piece(Pawn, White),
      Position(0, 7) := Piece(Rook, White), Position(1, 7) := Piece(Knight, White),
      Position(2, 7) := Piece(Bishop, White), Position(3, 7) := Piece(Queen, White),
      Position(4, 7) := Piece(King, White), Position(5, 7) := Piece(Bishop, White),
      Position(6, 7) := Piece(Knight, White), Position(7, 7) := Piece(Rook, White)
    ]
  }

  /** The back-rank piece on file x: R N B Q K B N R. */
  function BackRank(x: Coord): PieceType {
    [Rook, Knight, Bishop, Queen, King, Bishop, Knight, Rook][x]
  }

  /**
   * The standard starting layout cell by cell: row 0 Black's back rank,
   * row 1 Black pawns, rows 2-5 empty, row 6 White pawns, row 7 White's
   * back rank.
   */
  function StartingCell(p: Position): Option<Piece> {
    if p.y == 0 then Some(Piece(BackRank(p.x), Black))
    else if p.y == 1 then Some(Piece(Pawn, Black))
    else if p.y == 6 then Some(Piece(Pawn, White))
    else if p.y == 7 then Some(Piece(BackRank(p.x), White))
    else None
  }

  /** The starting mapping agrees with StartingCell square by square. */
  lemma StartingMappingIsStandard(p: Position)
    ensures (if p in StartingState() then Some(StartingState()[p]) else None) == StartingCell(p)
  {
    if p.y == 0 || p.y == 1 || p.y == 6 || p.y == 7 {
      StartingRow(p.x, p.y);
    } else {
      assert p !in StartingState();
    }
  }

  /** A square of an occupied starting row is a key of the starting mapping, holding its StartingCell piece. */
  lemma StartingRow(x: Coord, y: Coord)
    requires y == 0 || y == 1 || y == 6 || y == 7
    ensures Position(x, y) in StartingState() && Some(StartingState()[Position(x, y)]) == StartingCell(Position(x, y))
  {
    if y == 0 {
      StartingBlackBackRank(x);
    } else if y == 1 {
      StartingBlackPawnRow(x);
    } else if y == 6 {
      StartingWhitePawnRow(x);
    } else if y == 7 {
      StartingWhiteBackRank(x);
    }
  }

  /** Row 0, Black's back rank, as the starting mapping lists it. */
  lemma StartingBlackBackRank(x: Coord)
    ensures Position(x, 0) in StartingState() && Some(StartingState()[Position(x, 0)]) == StartingCell(Position(x, 0))
  {
    if x == 0 {
    } else if x == 1 {
    } else if x == 2 {
    } else if x == 3 {
    } else if x == 4 {
    } else if x == 5 {
    } else if x == 6 {
    } else {
    }
  }

  /** Row 1, Black's pawns, as the starting mapping lists it. */
  lemma StartingBlackPawnRow(x: Coord)
    ensures Position(x, 1) in StartingState() && Some(StartingState()[Position(x, 1)]) == StartingCell(Position(x, 1))
  {
    if x == 0 {
    } else if x == 1 {
    } else if x == 2 {
    } else if x == 3 {
    } else if x == 4 {
    } else if x == 5 {
    } else if x == 6 {
    } else {
    }
  }

  /** Row 6, White's pawns, as the starting mapping lists it. */
  lemma StartingWhitePawnRow(x: Coord)
    ensures Position(x, 6) in StartingState() && Some(StartingState()[Position(x, 6)]) == StartingCell(Position(x, 6))
  {
    if x == 0 {
    } else if x == 1 {
    } else if x == 2 {
    } else if x == 3 {
    } else if x == 4 {
    } else if x == 5 {
    } else if x == 6 {
    } else {
    }
  }

  /** Row 7, White's back rank, as the starting mapping lists it. */
  lemma StartingWhiteBackRank(x: Coord)
    ensures Position(x, 7) in StartingState() && Some(StartingState()[Position(x, 7)]) == StartingCell(Position(x, 7))
  {
    if x == 0 {
    } else if x == 1 {
    } else if x == 2 {
    } else if x == 3 {
    } else if x == 4 {
    } else if x == 5 {
    } else if x == 6 {
    } else {
    }
  }

  /** `STARTING_BOARD_STATE` is the standard layout. */
  lemma StartingStateIsStandard(p: Position)
    ensures Cell(GridOfMapping(StartingState()), p) == StartingCell(p)
  {
    StartingMappingIsStandard(p);
  }

  // Text form ------------------------------------------------------------

  /** One line of `to_unicode`: the eight glyphs of a row separated by single spaces. */
  function RowText(row: Row): string {
    Join(" ", seq(8, x requires 0 <= x < 8 => [GlyphOf(row[x])]))
  }

  /** `to_unicode`: the eight row lines (y = 0..7), each ending in a newline. */
  function Render(g: Grid): string {
    Join("\n", seq(8, y requires 0 <= y < 8 => RowText(g[y]))) + "\n"
  }

  /** The glyphs of a grid, row by row. */
  function GlyphRows(g: Grid): seq<string> {
    seq(8, y requires 0 <= y < 8 => seq(8, x requires 0 <= x < 8 => GlyphOf(g[y][x])))
  }

  lemma GlyphRowsConcat(g: Grid)
    ensures |Concat(GlyphRows(g))| == 64
    ensures forall p :: Concat(GlyphRows(g))[RowMajorIndex(p)] == GlyphOf(Cell(g, p))
  {
    ConcatLength(GlyphRows(g));
    forall p ensures Concat(GlyphRows(g))[RowMajorIndex(p)] == GlyphOf(Cell(g, p)) {
      ConcatBlocks(GlyphRows(g), p.y, p.x);
    }
  }

  /** The 64 glyphs of a grid in row-major order. */
  function GlyphsOf(g: Grid): (s: string)
    ensures |s| == 64
    ensures forall p :: s[RowMajorIndex(p)] == GlyphOf(Cell(g, p))
  {
    GlyphRowsConcat(g);
    Concat(GlyphRows(g))
  }

  lemma {:induction false} ConcatSingletons(s: string)
    ensures Concat(seq(|s|, i requires 0 <= i < |s| => [s[i]])) == s
  {
    if |s| > 0 {
      var parts := seq(|s|, i requires 0 <= i < |s| => [s[i]]);
      assert parts[1..] == seq(|s[1..]|, i requires 0 <= i < |s[1..]| => [s[1..][i]]);
      ConcatSingletons(s[1..]);
      assert s == [s[0]] + s[1..];
    }
  }

  /** Stripping the whitespace of a rendered board leaves its 64 glyphs in row-major order. */
  lemma StripRender(g: Grid)
    ensures StripWhitespace(Render(g)) == GlyphsOf(g)
  {
    var lines := seq(8, y requires 0 <= y < 8 => RowText(g[y]));
    var rows := GlyphRows(g);
    StripWhitespaceAppend(Join("\n", lines), "\n");
    StripJoin("\n", lines);
    forall y | 0 <= y < 8
      ensures StripWhitespace(lines[y]) == rows[y]
    {
      StripRowText(g, y);
    }
    assert seq(8, i requires 0 <= i < 8 => StripWhitespace(lines[i])) == rows;
  }

  /** Stripping the whitespace of one rendered row leaves its eight glyphs. */
  lemma StripRowText(g: Grid, y: int)
    requires 0 <= y < 8
    ensures StripWhitespace(RowText(g[y])) == GlyphRows(g)[y]
  {
    var row := GlyphRows(g)[y];
    var cells := seq(8, x requires 0 <= x < 8 => [GlyphOf(g[y][x])]);
    StripJoin(" ", cells);
    var stripped := seq(8, i requires 0 <= i < 8 => StripWhitespace(cells[i]));
    forall i | 0 <= i < 8 ensures stripped[i] == cells[i] {
      GlyphsAreNotWhitespace(GlyphOf(g[y][i]));
    }
    assert stripped == cells;
    ConcatSingletons(row);
    assert cells == seq(|row|, i requires 0 <= i < |row| => [row[i]]);
  }

  /** Where the glyph of a square stands in the rendered text: line y is 16 characters long, and each glyph is followed by one separator. */
  function TextOffset(p: Position): (k: int)
    ensures 0 <= k < 127
  {
    16 * p.y + 2 * p.x
  }

  /** A rendered row is 15 characters: glyph x at 2x, and a space after every glyph but the last. */
  lemma RowTextAt(row: Row, x: int)
    requires 0 <= x < 8
    ensures |RowText(row)| == 15
    ensures RowText(row)[2 * x] == GlyphOf(row[x])
    ensures x < 7 ==> RowText(row)[2 * x + 1] == ' '
  {
    var cells := seq(8, i requires 0 <= i < 8 => [GlyphOf(row[i])]);
    JoinLength(" ", cells, 1);
    BlockStartIs(1, 8);
    JoinCell(" ", cells, 1, x, 0);
    BlockStartIs(1, x);
    if x < 7 {
      JoinSeparator(" ", cells, 1, x);
    }
  }

  /** The rendered text is eight 15-character lines, each followed by a newline: 128 characters. */
  lemma RenderLength(g: Grid)
    ensures |Render(g)| == 128
  {
    var lines := seq(8, y requires 0 <= y < 8 => RowText(g[y]));
    forall y | 0 <= y < 8 ensures |lines[y]| == 15 {
      RowTextAt(g[y], 0);
    }
    JoinLength("\n", lines, 15);
    BlockStartIs(15, 8);
  }

  /** Each square's glyph is at its text offset, followed by a space or, at the end of a row, a newline. */
  lemma RenderAt(g: Grid, p: Position)
    ensures |Render(g)| == 128
    ensures Render(g)[TextOffset(p)] == GlyphOf(Cell(g, p))
    ensures Render(g)[TextOffset(p) + 1] == if p.x == 7 then '\n' else ' '
  {
    var lines := seq(8, y requires 0 <= y < 8 => RowText(g[y]));
    forall y | 0 <= y < 8 ensures |lines[y]| == 15 {
      RowTextAt(g[y], 0);
    }
    RenderLength(g);
    BlockStartIs(15, p.y);
    RowTextAt(g[p.y], p.x);
    JoinCell("\n", lines, 15, p.y, 2 * p.x);
    if p.x < 7 {
      JoinCell("\n", lines, 15, p.y, 2 * p.x + 1);
    } else if p.y < 7 {
      JoinSeparator("\n", lines, 15, p.y);
    }
  }

  /** The layout of `to_unicode`, square by square. */
  lemma RenderLayout(g: Grid)
    ensures |Render(g)| == 128
    ensures forall y, x | 0 <= y < 8 && 0 <= x < 8 ::
              Render(g)[16 * y + 2 * x] == GlyphOf(g[y][x]) && Render(g)[16 * y + 2 * x + 1] == if x == 7 then '\n' else ' '
  {
    RenderLength(g);
    forall y, x | 0 <= y < 8 && 0 <= x < 8
      ensures Render(g)[16 * y + 2 * x] == GlyphOf(g[y][x]) && Render(g)[16 * y + 2 * x + 1] == if x == 7 then '\n' else ' '
    {
      var p := Position(x, y);
      RenderAt(g, p);
      assert TextOffset(p) == 16 * y + 2 * x && Cell(g, p) == g[y][x];
    }
  }

  /** How the k-th glyph of a board text is assigned to a square. */
  datatype Order = RowMajor | ColumnMajor

  function GlyphIndex(order: Order, p: Position): (k: int)
    ensures 0 <= k < 64
  {
    match order
    case RowMajor => 8 * p.y + p.x
    case ColumnMajor => 8 * p.x + p.y
  }

  function PositionAt(order: Order, k: int): (p: Position)
    requires 0 <= k < 64
    ensures GlyphIndex(order, p) == k
  {
    match order
    case RowMajor => RowMajorAt(k)
    case ColumnMajor => ColumnMajorAt(k)
  }

  lemma PositionAtGlyphIndex(order: Order, p: Position)
    ensures PositionAt(order, GlyphIndex(order, p)) == p
  {
  }

  /** Why `from_unicode` raises. */
  datatype ParseError =
    | UnknownGlyph(glyph: char)   // KeyError from unicode_to_piece
    | WrongGlyphCount(count: int) // ValueError from zip(..., strict=True)

  /** The first character of s[k..n] that is not a glyph, if any. */
  function FirstUnknown(s: string, k: nat, n: nat): (r: Option<char>)
    requires k <= n <= |s|
    ensures r.None? <==> forall i | k <= i < n :: PieceOfGlyph(s[i]).Some?
    ensures r.Some? ==> exists i | k <= i < n :: s[i] == r.value && PieceOfGlyph(s[i]).None? &&
                          forall j | k <= j < i :: PieceOfGlyph(s[j]).Some?
    decreases n - k
  {
    if k == n then None
    else if PieceOfGlyph(s[k]).None? then Some(s[k])
    else FirstUnknown(s, k + 1, n)
  }

  /** The grid whose square p holds the glyph at GlyphIndex(order, p). */
  function GridOfGlyphs(s: string, order: Order): (g: Grid)
    requires |s| == 64 && forall i | 0 <= i < 64 :: PieceOfGlyph(s[i]).Some?
    ensures forall p :: Cell(g, p) == PieceOfGlyph(s[GlyphIndex(order, p)]).value
  {
    seq(8, y requires 0 <= y < 8 =>
      seq(8, x requires 0 <= x < 8 => PieceOfGlyph(s[GlyphIndex(order, Position(x, y))]).value))
  }

  /**
   * What `from_unicode` computes: strip the whitespace, then assign the glyphs
   * to the squares in the given order. An unknown glyph among the first 64
   * raises KeyError; otherwise a count other than 64 makes the strict zip raise.
   */
  function Decode(text: string, order: Order): Result<Grid, ParseError> {
    var s := StripWhitespace(text);
    match FirstUnknown(s, 0, if |s| < 64 then |s| else 64)
    case Some(c) => Err(UnknownGlyph(c))
    case None => if |s| != 64 then Err(WrongGlyphCount(|s|)) else Ok(GridOfGlyphs(s, order))
  }

  /** `Board.from_unicode(b.to_unicode()) == b`. */
  lemma DecodeRender(g: Grid)
    ensures Decode(Render(g), RowMajor) == Ok(g)
  {
    StripRender(g);
    DecodeGlyphsOf(Render(g), g);
  }

  /** Any text whose glyphs are those of g, in row-major order, decodes to g. */
  lemma DecodeGlyphsOf(text: string, g: Grid)
    requires StripWhitespace(text) == GlyphsOf(g)
    ensures Decode(text, RowMajor) == Ok(g)
  {
    var s := GlyphsOf(g);
    forall i | 0 <= i < 64 ensures PieceOfGlyph(s[i]).Some? {
      var p := RowMajorAt(i);
      assert s[RowMajorIndex(p)] == GlyphOf(Cell(g, p));
    }
    forall p ensures Cell(GridOfGlyphs(s, RowMajor), p) == Cell(g, p) {
      assert s[GlyphIndex(RowMajor, p)] == GlyphOf(Cell(g, p));
    }
    GridExtensionality(GridOfGlyphs(s, RowMajor), g);
  }

  /** The Board of kingdom_chess. */
  class Board {
    var grid: Grid

    /** `Board()`: all 64 cells empty. */
    constructor ()
      ensures grid == EmptyGrid()
    {
      grid := EmptyGrid();
    }

    /** `__getitem__`. */
    function At(p: Position): Option<Piece>
      reads this
    {
      Cell(grid, p)
    }

    /** `__setitem__`. */
    method Set(p: Position, piece: Option<Piece>)
      modifies this
      ensures grid == SetCell(old(grid), p, piece)
    {
      grid := grid[p.y := grid[p.y][p.x := piece]];
    }

    /** `to_mapping`. */
    function ToMapping(): (m: map<Position, Piece>)
      reads this
      ensures forall p :: p in m <==> At(p).Some?
      ensures forall p | p in m :: m[p] == At(p).value
    {
      MappingOf(grid)
    }

    /** `from_mapping`: a new board holding exactly the mapping's pieces. */
    static method FromMapping(m: map<Position, Piece>) returns (b: Board)
      ensures fresh(b)
      ensures b.grid == GridOfMapping(m)
    {
      b := new Board();
      var rest := m.Keys;
      while rest != {}
        invariant rest <= m.Keys
        invariant forall p :: Cell(b.grid, p) == if p in m && p !in rest then Some(m[p]) else None
        decreases rest
      {
        var p :| p in rest;
        b.Set(p, Some(m[p]));
        rest := rest - {p};
      }
      GridExtensionality(b.grid, GridOfMapping(m));
    }

    /** `initialy_filled`: `from_mapping(STARTING_BOARD_STATE)`. */
    static method InitiallyFilled() returns (b: Board)
      ensures fresh(b)
      ensures forall p :: b.At(p) == StartingCell(p)
    {
      b := FromMapping(StartingState());
      forall p ensures b.At(p) == StartingCell(p) {
        StartingStateIsStandard(p);
      }
    }

    /**
     * The loop of `from_unicode`: the k-th glyph goes to the k-th square in
     * row-major order, stopping at the first unknown glyph or after 64.
     */
    method PlaceGlyphs(s: string) returns (k: nat)
      requires grid == EmptyGrid()
      modifies this
      ensures k <= 64 && k <= |s|
      ensures forall i | 0 <= i < k :: PieceOfGlyph(s[i]).Some?
      ensures k < 64 && k < |s| ==> PieceOfGlyph(s[k]).None?
      ensures forall p :: Cell(grid, p) ==
                if RowMajorIndex(p) < k then PieceOfGlyph(s[RowMajorIndex(p)]).value else None
    {
      k := 0;
      while k < 64 && k < |s|
        invariant 0 <= k <= 64 && k <= |s|
        invariant forall i | 0 <= i < k :: PieceOfGlyph(s[i]).Some?
        invariant forall p :: Cell(grid, p) ==
                    if RowMajorIndex(p) < k then PieceOfGlyph(s[RowMajorIndex(p)]).value else None
      {
        var piece := PieceOfGlyph(s[k]);
        if piece.None? {
          return;
        }
        var q := RowMajorAt(k);
        Set(q, piece.value);
        forall p | p != q ensures RowMajorIndex(p) != k {
        }
        k := k + 1;
      }
    }

    /** `from_unicode`: glyphs assigned in row-major order (y outer, x inner). */
    static method FromUnicode(text: string) returns (r: Result<Board, ParseError>)
      ensures Decode(text, RowMajor).Err? ==> r == Err(Decode(text, RowMajor).error)
      ensures Decode(text, RowMajor).Ok? ==>
                r.Ok? && fresh(r.value) && r.value.grid == Decode(text, RowMajor).value
    {
      var b := new Board();
      var s := StripWhitespace(text);
      var k := b.PlaceGlyphs(s);
      var n := if |s| < 64 then |s| else 64;
      FirstUnknownSkips(s, 0, k, n);
      if k < n {
        return Err(UnknownGlyph(s[k]));
      }
      if |s| != 64 {
        return Err(WrongGlyphCount(|s|));
      }
      GridExtensionality(b.grid, GridOfGlyphs(s, RowMajor));
      return Ok(b);
    }

    /** `to_unicode`: the rows y = 0..7, glyphs separated by spaces, lines ended by newlines. */
    function ToUnicode(): (r: string)
      reads this
      ensures StripWhitespace(r) == GlyphsOf(grid)
      ensures |r| == 128
      ensures forall y, x | 0 <= y < 8 && 0 <= x < 8 ::
                r[16 * y + 2 * x] == GlyphOf(grid[y][x]) && r[16 * y + 2 * x + 1] == if x == 7 then '\n' else ' '
    {
      StripRender(grid);
      RenderLayout(grid);
      Render(grid)
    }

    /** `__eq__`: true iff the two boards hold the same piece on every square. */
    function Equals(other: Board): (r: bool)
      reads this, other
      ensures r <==> grid == other.grid
      ensures r <==> forall p :: At(p) == other.At(p)
    {
      assert (forall p :: At(p) == other.At(p)) ==> grid == other.grid by {
        if forall p :: At(p) == other.At(p) {
          forall p ensures Cell(grid, p) == Cell(other.grid, p) {
            assert At(p) == other.At(p);
          }
          GridExtensionality(grid, other.grid);
        }
      }
      SameCells(grid, other.grid)
    }
  }

  /** Skipping a prefix of known glyphs does not change the first unknown one. */
  lemma {:induction false} FirstUnknownSkips(s: string, j: nat, k: nat, n: nat)
    requires j <= k <= n <= |s|
    requires forall i | j <= i < k :: PieceOfGlyph(s[i]).Some?
    ensures FirstUnknown(s, j, n) == FirstUnknown(s, k, n)
    decreases k - j
  {
    if j < k {
      FirstUnknownSkips(s, j + 1, k, n);
    }
  }

  /** `from_mapping(board.to_mapping())` rebuilds the board's grid; ToMappingOfFromMapping is the other direction, on mappings. */
  lemma BoardMappingRoundTrip(b: Board)
    ensures GridOfMapping(b.ToMapping()) == b.grid
  {
    FromMappingOfToMapping(b.grid);
  }
}
