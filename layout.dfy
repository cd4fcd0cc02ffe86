/**
 * Board coordinates (`Position`, `_compare`) of kingdom_chess.
 *
 * x is the file index (0 = file a), y is the row index (0 = rank 8,
 * the row Black starts on; 7 = rank 1).
 */
module Layout {
  import opened Common

  const BoardSideLen: int := 8
  /** File labels, indexed by x. */
  const Files: string := "abcdefgh"
  /** Rank labels, indexed by y: row 0 is rank 8. */
  const Ranks: string := "87654321"

  type Coord = i: int | 0 <= i < 8

  /** A square of the board; both coordinates lie in [0, 8). */
  datatype Position = Position(x: Coord, y: Coord)

  /** The `ValueError`s raised by the coordinate code. */
  datatype ValueError =
    | OutOfBoard(x: int, y: int)       // Position(x, y) with a coordinate outside [0, 8)
    | InvalidCoordinate(coord: string)  // from_coordinate on a bad label

  predicate OnBoard(x: int, y: int) {
    0 <= x < BoardSideLen && 0 <= y < BoardSideLen
  }

  /** `Position(x, y)`: the bounds check of `__post_init__`. */
  function MakePosition(x: int, y: int): (r: Result<Position, ValueError>)
    ensures r.Ok? <==> OnBoard(x, y)
    ensures r.Ok? ==> r.value.x == x && r.value.y == y
    ensures r.Err? ==> r.error == OutOfBoard(x, y)
  {
    if !(0 <= x < BoardSideLen) || !(0 <= y < BoardSideLen) then Err(OutOfBoard(x, y))
    else Ok(Position(x, y))
  }

  /** `str.find` for a one-character needle: the first index of `c`, or -1. */
  function Find(s: string, c: char): (r: int)
    ensures -1 <= r < |s|
    ensures r == -1 <==> c !in s
    ensures 0 <= r ==> s[r] == c && c !in s[..r]
  {
    if |s| == 0 then -1
    else if s[0] == c then 0
    else
      var k := Find(s[1..], c);
      assert s[1..][..if k < 0 then 0 else k] == s[1..1 + if k < 0 then 0 else k];
      if k == -1 then -1 else k + 1
  }

  /** The "{file}{rank}" label of a square (the inverse of FromCoordinate). */
  function Label(p: Position): string {
    [Files[p.x], Ranks[p.y]]
  }

  /** `Position.from_coordinate`: parse a "{file}{rank}" label. */
  function FromCoordinate(coord: string): (r: Result<Position, ValueError>)
    ensures r.Ok? <==> |coord| == 2 && coord[0] in Files && coord[1] in Ranks
    ensures r.Ok? ==> Label(r.value) == coord
    ensures r.Err? ==> r.error == InvalidCoordinate(coord)
  {
    if |coord| != 2 then Err(InvalidCoordinate(coord))
    else
      var file := Find(Files, coord[0]);
      var rank := Find(Ranks, coord[1]);
      if file == -1 || rank == -1 then Err(InvalidCoordinate(coord))
      else Ok(Position(file, rank))
  }

  /** No character occurs twice. */
  predicate Distinct(s: string) {
    forall i, j | 0 <= i < j < |s| :: s[i] != s[j]
  }

  /** In a string without repeats, `find` returns the index of the character there. */
  lemma FindDistinct(s: string, i: int)
    requires Distinct(s) && 0 <= i < |s|
    ensures Find(s, s[i]) == i
  {
    var r := Find(s, s[i]);
    assert s[i] in s;
    assert s[r] == s[i];
  }

  /** Every square's label parses back to that square. */
  lemma FromCoordinateOfLabel(p: Position)
    ensures FromCoordinate(Label(p)) == Ok(p)
  {
    assert Distinct(Files) && Distinct(Ranks);
    FindDistinct(Files, p.x);
    FindDistinct(Ranks, p.y);
  }

  /** `_compare(x, y)`: the sign of y - x. */
  function Compare(x: int, y: int): (r: int)
    ensures r == 0 <==> x == y
    ensures r == 1 <==> x < y
    ensures r == -1 <==> y < x
  {
    if x == y then 0
    else if x < y then 1
    else -1
  }

  /** `direction_to`: the unit step from `from` toward `to` on each axis. */
  function DirectionTo(from: Position, to: Position): (r: (int, int))
    ensures -1 <= r.0 <= 1 && -1 <= r.1 <= 1
    ensures (r.0 == 0 <==> from.x == to.x) && (r.0 == 1 <==> from.x < to.x)
    ensures (r.1 == 0 <==> from.y == to.y) && (r.1 == 1 <==> from.y < to.y)
  {
    (Compare(from.x, to.x), Compare(from.y, to.y))
  }

  /**
   * The condition asserted by `direction_to`. Python's `or` short-circuits,
   * so when dx != 0 or dy != 0 the first two disjuncts hold, and otherwise
   * abs(0) == abs(0): the assertion never fails.
   */
  predicate DirectionAssertion(from: Position, to: Position) {
    var dx := to.x - from.x;
    var dy := to.y - from.y;
    dx != 0 || dy != 0 || Abs(dx) == Abs(dy)
  }

  function Abs(n: int): nat {
    if n < 0 then -n else n
  }

  /** Straight (same file or row) or diagonal: what `direction_to` is meant to demand. */
  predicate Aligned(from: Position, to: Position) {
    from.x == to.x || from.y == to.y || Abs(to.x - from.x) == Abs(to.y - from.y)
  }

  /** The assertion of `direction_to` admits every pair, a knight's jump included. */
  lemma DirectionAssertionIsVacuous(from: Position, to: Position)
    ensures DirectionAssertion(from, to)
    ensures from == Position(0, 0) && to == Position(1, 2) ==> !Aligned(from, to)
  {
  }

  /** `shift`: move a square by a delta; fails off the board. */
  function Shift(p: Position, dx: int, dy: int): (r: Result<Position, ValueError>)
    ensures r.Ok? <==> OnBoard(p.x + dx, p.y + dy)
    ensures r.Ok? ==> r.value.x == p.x + dx && r.value.y == p.y + dy
    ensures r.Err? ==> r.error == OutOfBoard(p.x + dx, p.y + dy)
  {
    MakePosition(p.x + dx, p.y + dy)
  }

  /** Index of a square in row-major order (y outer, x inner). */
  function RowMajorIndex(p: Position): (k: int)
    ensures 0 <= k < 64
  {
    8 * p.y + p.x
  }

  /** The k-th square in row-major order, the order `to_mapping` lists squares in. */
  function RowMajorAt(k: int): (p: Position)
    requires 0 <= k < 64
    ensures RowMajorIndex(p) == k
  {
    Position(k % 8, k / 8)
  }

  /** The k-th square in column-major order (x outer, y inner). */
  function ColumnMajorAt(k: int): (p: Position)
    requires 0 <= k < 64
    ensures 8 * p.x + p.y == k
  {
    Position(k / 8, k % 8)
  }

  lemma RowMajorAtIndex(p: Position)
    ensures RowMajorAt(RowMajorIndex(p)) == p
  {
  }

  lemma ColumnMajorAtIndex(p: Position)
    ensures ColumnMajorAt(8 * p.x + p.y) == p
  {
  }
}
