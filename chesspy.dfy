/**
 * The chesspy package: an older snapshot of the same board with its own
 * `Position` check, `Board` class and text form. Its pieces, glyph tables
 * and grid value are those of kingdom_chess; what differs is modelled here.
 */
module ChessPy {
  import opened Common
  import opened Layout
  import opened Pieces
  import opened Text
  import opened Boards

  /** The three `ValueError`s of `Position.__post_init__`. */
  datatype PositionError =
    | InvalidValues(x: int, y: int) // both coordinates outside [0, 8)
    | InvalidX(x: int, y: int)      // only x outside
    | InvalidY(x: int, y: int)      // only y outside

  /** `Position(x, y)`: both coordinates checked, the error naming which are wrong. */
  function CheckedPosition(x: int, y: int): (r: Result<Position, PositionError>)
    ensures r.Ok? <==> OnBoard(x, y)
    ensures r.Ok? ==> r.value == Position(x, y)
    ensures r == Err(InvalidValues(x, y)) <==> !(0 <= x < 8) && !(0 <= y < 8)
    ensures r == Err(InvalidX(x, y)) <==> !(0 <= x < 8) && 0 <= y < 8
    ensures r == Err(InvalidY(x, y)) <==> 0 <= x < 8 && !(0 <= y < 8)
  {
    var xInvalid := !(0 <= x < BoardSideLen);
    var yInvalid := !(0 <= y < BoardSideLen);
    if xInvalid && yInvalid then Err(InvalidValues(x, y))
    else if xInvalid then Err(InvalidX(x, y))
    else if yInvalid then Err(InvalidY(x, y))
    else Ok(Position(x, y))
  }

  /** Both packages accept exactly the same coordinates. */
  lemma CheckedPositionAgrees(x: int, y: int)
    ensures CheckedPosition(x, y).Ok? <==> MakePosition(x, y).Ok?
    ensures CheckedPosition(x, y).Ok? ==> CheckedPosition(x, y).value == MakePosition(x, y).value
  {
  }

  /** `border_pieces_types` of `initialy_filled`. */
  const BorderPieceTypes: seq<PieceType> := [Rook, Knight, Bishop, Queen, King, Bishop, Knight, Rook]

  /** The grid with rows and columns exchanged. */
  function Transpose(g: Grid): (t: Grid)
    ensures forall p :: Cell(t, p) == Cell(g, Position(p.y, p.x))
  {
    seq(8, y requires 0 <= y < 8 => seq(8, x requires 0 <= x < 8 => g[x][y]))
  }

  /** Transposing twice gives the grid back. */
  lemma TransposeInvolutive(g: Grid)
    ensures Transpose(Transpose(g)) == g
  {
    GridExtensionality(Transpose(Transpose(g)), g);
  }

  /**
   * `Board.from_unicode(str(b))` reads the rendered board column by column:
   * it yields the transpose of b.
   */
  lemma DecodeRenderTransposes(g: Grid)
    ensures Decode(Render(g), ColumnMajor) == Ok(Transpose(g))
  {
    StripRender(g);
    DecodeGlyphsTransposes(Render(g), g);
  }

  /** Any text whose glyphs are those of g, in row-major order, is read back as the transpose of g. */
  lemma DecodeGlyphsTransposes(text: string, g: Grid)
    requires StripWhitespace(text) == GlyphsOf(g)
    ensures Decode(text, ColumnMajor) == Ok(Transpose(g))
  {
    var s := GlyphsOf(g);
    forall i | 0 <= i < 64 ensures PieceOfGlyph(s[i]).Some? {
      var p := RowMajorAt(i);
      assert s[RowMajorIndex(p)] == GlyphOf(Cell(g, p));
    }
    forall p ensures Cell(GridOfGlyphs(s, ColumnMajor), p) == Cell(Transpose(g), p) {
      var q := Position(p.y, p.x);
      assert GlyphIndex(ColumnMajor, p) == RowMajorIndex(q);
      assert s[RowMajorIndex(q)] == GlyphOf(Cell(g, q));
    }
    GridExtensionality(GridOfGlyphs(s, ColumnMajor), Transpose(g));
  }

  /** Rendering and reading back gives the same board exactly when it is symmetric about the diagonal. */
  lemma RoundTripIffSymmetric(g: Grid)
    ensures Decode(Render(g), ColumnMajor) == Ok(g) <==> Transpose(g) == g
  {
    DecodeRenderTransposes(g);
  }

  /** A black queen on (1, 0) comes back on (0, 1). */
  lemma QueenComesBackTransposed()
    ensures var g := SetCell(EmptyGrid(), Position(1, 0), Some(Piece(Queen, Black)));
            && Decode(Render(g), ColumnMajor).Ok?
            && Cell(Decode(Render(g), ColumnMajor).value, Position(0, 1)) == Some(Piece(Queen, Black))
            && Decode(Render(g), ColumnMajor) != Ok(g)
  {
    var g := SetCell(EmptyGrid(), Position(1, 0), Some(Piece(Queen, Black)));
    DecodeRenderTransposes(g);
    var t := Transpose(g);
    assert Cell(t, Position(0, 1)) == Some(Piece(Queen, Black));
    assert Cell(g, Position(0, 1)) == None;
  }

  /** The Board of chesspy. */
  class Board {
    var grid: Grid

    /** `Board()`: all 64 cells empty. */
    constructor ()
      ensures grid == EmptyGrid()
    {
      grid := EmptyGrid();
    }

    /** `__getitem__`. */
    function At(p: Position): Option<Piece>
      reads this
    {
      Cell(grid, p)
    }

    /** `__setitem__`. */
    method Set(p: Position, piece: Option<Piece>)
      modifies this
      ensures grid == SetCell(old(grid), p, piece)
    {
      grid := grid[p.y := grid[p.y][p.x := piece]];
    }

    /**
     * `initialy_filled`: Black's back rank on row 0 and pawns on row 1,
     * White's pawns on row 6 and back rank on row 7, written by four loops.
     */
    static method InitiallyFilled() returns (b: Board)
      ensures fresh(b)
      ensures forall p :: b.At(p) == StartingCell(p)
    {
      b := new Board();
      for i := 0 to 8
        invariant forall p :: b.At(p) == if p.y == 0 && p.x < i then StartingCell(p) else None
      {
        b.Set(Position(i, 0), Some(Piece(BorderPieceTypes[i], Black)));
      }
      for i := 0 to 8
        invariant forall p :: b.At(p) == if p.y == 0 || (p.y == 1 && p.x < i) then StartingCell(p) else None
      {
        b.Set(Position(i, 1), Some(Piece(Pawn, Black)));
      }
      for i := 0 to 8
        invariant forall p :: b.At(p) == if p.y <= 1 || (p.y == 6 && p.x < i) then StartingCell(p) else None
      {
        b.Set(Position(i, 6), Some(Piece(Pawn, White)));
      }
      for i := 0 to 8
        invariant forall p :: b.At(p) == if p.y <= 1 || p.y == 6 || (p.y == 7 && p.x < i) then StartingCell(p) else None
      {
        b.Set(Position(i, 7), Some(Piece(BorderPieceTypes[i], White)));
      }
    }

    /**
     * The loop of `from_unicode`: the k-th glyph goes to the k-th square of
     * the list built with x outer and y inner, stopping at the first unknown
     * glyph or once that list of 64 is used up.
     */
    method PlaceGlyphs(s: string) returns (k: nat)
      requires grid == EmptyGrid()
      modifies this
      ensures k <= 64 && k <= |s|
      ensures forall i | 0 <= i < k :: PieceOfGlyph(s[i]).Some?
      ensures k < 64 && k < |s| ==> PieceOfGlyph(s[k]).None?
      ensures forall p :: Cell(grid, p) ==
                if GlyphIndex(ColumnMajor, p) < k then PieceOfGlyph(s[GlyphIndex(ColumnMajor, p)]).value else None
    {
      k := 0;
      while k < 64 && k < |s|
        invariant 0 <= k <= 64 && k <= |s|
        invariant forall i | 0 <= i < k :: PieceOfGlyph(s[i]).Some?
        invariant forall p :: Cell(grid, p) ==
                    if GlyphIndex(ColumnMajor, p) < k then PieceOfGlyph(s[GlyphIndex(ColumnMajor, p)]).value else None
      {
        var piece := PieceOfGlyph(s[k]);
        if piece.None? {
          return;
        }
        var q := ColumnMajorAt(k);
        Set(q, piece.value);
        forall p | p != q ensures GlyphIndex(ColumnMajor, p) != k {
        }
        k := k + 1;
      }
    }

    /** `from_unicode`: glyphs assigned column by column (x outer, y inner). */
    static method FromUnicode(text: string) returns (r: Result<Board, ParseError>)
      ensures Decode(text, ColumnMajor).Err? ==> r == Err(Decode(text, ColumnMajor).error)
      ensures Decode(text, ColumnMajor).Ok? ==>
                r.Ok? && fresh(r.value) && r.value.grid == Decode(text, ColumnMajor).value
    {
      var b := new Board();
      var s := StripWhitespace(text);
      var k := b.PlaceGlyphs(s);
      var n := if |s| < 64 then |s| else 64;
      FirstUnknownSkips(s, 0, k, n);
      if k < n {
        return Err(UnknownGlyph(s[k]));
      }
      if |s| != 64 {
        return Err(WrongGlyphCount(|s|));
      }
      GridExtensionality(b.grid, GridOfGlyphs(s, ColumnMajor));
      return Ok(b);
    }

    /** `__str__`: the rows y = 0..7, glyphs separated by spaces, lines ended by newlines. */
    function ToString(): (r: string)
      reads this
      ensures StripWhitespace(r) == GlyphsOf(grid)
      ensures |r| == 128
      ensures forall y, x | 0 <= y < 8 && 0 <= x < 8 ::
                r[16 * y + 2 * x] == GlyphOf(grid[y][x]) && r[16 * y + 2 * x + 1] == if x == 7 then '\n' else ' '
    {
      StripRender(grid);
      RenderLayout(grid);
      Render(grid)
    }

    /** `__eq__`: true iff the two boards hold the same piece on every square. */
    function Equals(other: Board): (r: bool)
      reads this, other
      ensures r <==> grid == other.grid
      ensures r <==> forall p :: At(p) == other.At(p)
    {
      assert (forall p :: At(p) == other.At(p)) ==> grid == other.grid by {
        if forall p :: At(p) == other.At(p) {
          forall p ensures Cell(grid, p) == Cell(other.grid, p) {
            assert At(p) == other.At(p);
          }
          GridExtensionality(grid, other.grid);
        }
      }
      SameCells(grid, other.grid)
    }
  }
}
