/**
 * Moves of kingdom_chess: the `Move` record, `do_move` / `undo_move`,
 * `is_path_clear` and the read-only validator `interpret_move`.
 */
module Moves {
  import opened Common
  import opened Layout
  import opened Pieces
  import opened Boards

  datatype KingState = Safe | Check | Checkmate

  /** A validated move, with what `undo_move` needs to take it back. */
  datatype Move = Move(
    departure: Position,
    destination: Position,
    movingPiece: Piece,
    capturedPiece: Option<Piece>,
    promotionTo: Option<Piece>)

  /** `Move | MoveError`: a move, or the message of the rule it breaks. */
  datatype Outcome = Legal(move: Move) | Rejected(message: string)

  /** What `do_move` writes at the destination: `promotion_to or moving_piece`. */
  function Arriving(m: Move): Option<Piece> {
    if m.promotionTo.Some? then m.promotionTo else Some(m.movingPiece)
  }

  /** The grid after `do_move`: departure emptied, then the destination written. */
  function Applied(g: Grid, m: Move): (r: Grid)
    ensures Cell(r, m.destination) == Arriving(m)
    ensures m.departure != m.destination ==> Cell(r, m.departure) == None
    ensures forall q | q != m.departure && q != m.destination :: Cell(r, q) == Cell(g, q)
  {
    SetCell(SetCell(g, m.departure, None), m.destination, Arriving(m))
  }

  /** The grid after `undo_move`: captured piece back, then the mover back. */
  function Undone(g: Grid, m: Move): (r: Grid)
    ensures Cell(r, m.departure) == Some(m.movingPiece)
    ensures m.departure != m.destination ==> Cell(r, m.destination) == m.capturedPiece
    ensures forall q | q != m.departure && q != m.destination :: Cell(r, q) == Cell(g, q)
  {
    SetCell(SetCell(g, m.destination, m.capturedPiece), m.departure, Some(m.movingPiece))
  }

  /** A move recorded against grid g: what `interpret_move` guarantees of its result. */
  predicate RecordedOn(g: Grid, m: Move) {
    && m.departure != m.destination
    && Cell(g, m.departure) == Some(m.movingPiece)
    && Cell(g, m.destination) == m.capturedPiece
  }

  /** `undo_move` after `do_move` restores the board exactly. */
  lemma UndoAfterDo(g: Grid, m: Move)
    requires RecordedOn(g, m)
    ensures Undone(Applied(g, m), m) == g
  {
    GridExtensionality(Undone(Applied(g, m), m), g);
  }

  /** `do_move`: two cell writes. */
  method DoMove(m: Move, board: Board)
    modifies board
    ensures board.grid == Applied(old(board.grid), m)
  {
    board.Set(m.departure, None);
    board.Set(m.destination, Arriving(m));
  }

  /** `undo_move`: two cell writes. */
  method UndoMove(m: Move, board: Board)
    modifies board
    ensures board.grid == Undone(old(board.grid), m)
  {
    board.Set(m.destination, m.capturedPiece);
    board.Set(m.departure, Some(m.movingPiece));
  }

  // Paths ----------------------------------------------------------------

  /** Number of unit steps from `from` to `to` along a line. */
  function Distance(from: Position, to: Position): nat {
    var dx := Abs(to.x - from.x);
    var dy := Abs(to.y - from.y);
    if dx < dy then dy else dx
  }

  /** Coordinate a, moved k unit steps toward b. */
  function Toward(a: int, b: int, k: int): int {
    if a == b then a else if a < b then a + k else a - k
  }

  /** The square k unit steps from `from` toward `to`. */
  function Along(from: Position, to: Position, k: int): (p: Position)
    requires Aligned(from, to) && 0 <= k <= Distance(from, to)
    ensures k == 0 ==> p == from
    ensures p == to <==> k == Distance(from, to)
  {
    Position(Toward(from.x, to.x, k), Toward(from.y, to.y, k))
  }

  /** Every square strictly between `from` and `to` is empty. */
  predicate PathClear(g: Grid, from: Position, to: Position)
    requires Aligned(from, to)
  {
    forall k | 0 < k < Distance(from, to) :: Cell(g, Along(from, to, k)).None?
  }

  /** Adjacent squares are always clear. */
  lemma AdjacentPathClear(g: Grid, from: Position, to: Position)
    requires Aligned(from, to) && Distance(from, to) <= 1
    ensures PathClear(g, from, to)
  {
  }

  /** One `shift` by the direction moves one square further along the line. */
  lemma ShiftAlong(from: Position, to: Position, k: int)
    requires Aligned(from, to) && 0 <= k < Distance(from, to)
    ensures Shift(Along(from, to, k), DirectionTo(from, to).0, DirectionTo(from, to).1) == Ok(Along(from, to, k + 1))
  {
  }

  /**
   * `is_path_clear`: walk from the departure toward the destination one
   * `shift` at a time. On a straight or diagonal line the walk reaches the
   * destination and never leaves the board.
   */
  method IsPathClear(g: Grid, departure: Position, destination: Position) returns (clear: bool)
    requires Aligned(departure, destination)
    ensures clear <==> PathClear(g, departure, destination)
  {
    var (dx, dy) := DirectionTo(departure, destination);
    ghost var n := Distance(departure, destination);
    ghost var k := 1;
    if n > 0 {
      ShiftAlong(departure, destination, 0);
    }
    var intermediate := Shift(departure, dx, dy).value;
    while intermediate != destination
      invariant n == 0 ==> intermediate == destination
      invariant n > 0 ==> 1 <= k <= n && intermediate == Along(departure, destination, k)
      invariant forall j | 0 < j < k && j < n :: Cell(g, Along(departure, destination, j)).None?
      decreases n - k
    {
      if Cell(g, intermediate) != None {
        return false;
      }
      ShiftAlong(departure, destination, k);
      intermediate := Shift(intermediate, dx, dy).value;
      k := k + 1;
    }
    return true;
  }

  // Piece geometry -------------------------------------------------------

  /** Row direction a pawn advances in: +1 for Black, -1 for White. */
  function Forward(c: Color): int {
    if c == Black then 1 else -1
  }

  /** Row a pawn starts on (and may advance two squares from). */
  function PawnHomeRow(c: Color): Coord {
    if c == Black then 1 else 6
  }

  /** Row on which a pawn is promoted. */
  function LastRow(c: Color): Coord {
    if c == Black then 7 else 0
  }

  predicate KingShape(dx: int, dy: int) { Abs(dx) <= 1 && Abs(dy) <= 1 }
  predicate RookShape(dx: int, dy: int) { dx == 0 || dy == 0 }
  predicate BishopShape(dx: int, dy: int) { Abs(dx) == Abs(dy) }
  predicate QueenShape(dx: int, dy: int) { RookShape(dx, dy) || BishopShape(dx, dy) }
  predicate KnightShape(dx: int, dy: int) {
    (Abs(dx) == 1 && Abs(dy) == 2) || (Abs(dx) == 2 && Abs(dy) == 1)
  }

  /**
   * Whether the geometry of piece type t lets it go from `from` to `to`,
   * obstruction included: the reference statement of the piece rules.
   */
  predicate GeometryAllows(g: Grid, t: PieceType, color: Color, from: Position, to: Position) {
    var dx := to.x - from.x;
    var dy := to.y - from.y;
    match t
    case King => KingShape(dx, dy)
    case Rook => RookShape(dx, dy) && PathClear(g, from, to)
    case Bishop => BishopShape(dx, dy) && PathClear(g, from, to)
    case Queen => QueenShape(dx, dy) && PathClear(g, from, to)
    case Knight => KnightShape(dx, dy)
    case Pawn =>
      || (Abs(dx) == 1 && dy == Forward(color) && Cell(g, to).Some?)
      || (dx == 0 && dy == Forward(color) && Cell(g, to).None?)
      || (dx == 0 && dy == 2 * Forward(color) && from.y == PawnHomeRow(color)
          && PathClear(g, from, to) && Cell(g, to).None?)
  }

  /** A pawn move onto its last row: the only move that carries a promotion. */
  predicate Promotes(g: Grid, color: Color, from: Position, to: Position) {
    Cell(g, from).Some? && Cell(g, from).value.typ == Pawn && to.y == LastRow(color)
  }

  /**
   * The declarative rule `interpret_move` decides: a piece of the mover's
   * colour, a geometrically possible path, a promotion target exactly when
   * a pawn reaches its last row, and no capture of an allied piece -- except
   * by a promoting pawn, which the code lets through.
   */
  predicate LegalMove(g: Grid, color: Color, from: Position, to: Position, promotionTo: Option<PromotionTarget>) {
    && from != to
    && Cell(g, from).Some? && Cell(g, from).value.color == color
    && GeometryAllows(g, Cell(g, from).value.typ, color, from, to)
    && (if Promotes(g, color, from, to) then promotionTo.Some?
        else promotionTo.None? && !(Cell(g, to).Some? && Cell(g, to).value.color == color))
  }

  /** The move `interpret_move` records when it accepts. */
  function RecordedMove(g: Grid, color: Color, from: Position, to: Position, promotionTo: Option<PromotionTarget>): Move
    requires Cell(g, from).Some?
  {
    Move(from, to, Cell(g, from).value, Cell(g, to),
         if promotionTo.Some? then Some(Piece(promotionTo.value, color)) else None)
  }

  /**
   * The message each broken pawn rule gives: a diagonal step onto an empty
   * square, a step that is neither diagonal, single nor a double from the
   * home row, a blocked double step, and a straight step onto a piece.
   */
  predicate PawnGeometryRejects(g: Grid, color: Color, from: Position, to: Position, r: Outcome) {
    var dx := to.x - from.x;
    var dy := to.y - from.y;
    var forward := Forward(color);
    var double := from.y == PawnHomeRow(color) && dy == 2 * forward;
    && (Abs(dx) == 1 && dy == forward && Cell(g, to).None? ==>
          r == Rejected("pawn can move diagonally only when capturing"))
    && (!(Abs(dx) == 1 && dy == forward) && (dx != 0 || (dy != forward && !double)) ==>
          r == Rejected("invalid pawn move"))
    && (dx == 0 && double && !PathClear(g, from, to) ==>
          r == Rejected("pawn can't leap over intervening piece"))
    && (dx == 0 && (dy == forward || (double && PathClear(g, from, to))) && Cell(g, to).Some? ==>
          r == Rejected("pawn can't capture on forward move"))
  }

  /** The message each broken rule of the other pieces gives: a wrong shape, or a piece in the way. */
  predicate OfficerGeometryRejects(g: Grid, t: PieceType, from: Position, to: Position, r: Outcome) {
    var dx := to.x - from.x;
    var dy := to.y - from.y;
    match t
    case King => !KingShape(dx, dy) ==> r == Rejected("invalid king move")
    case Knight => !KnightShape(dx, dy) ==> r == Rejected("invalid knight move")
    case Rook =>
      && (!RookShape(dx, dy) ==> r == Rejected("invalid rook move"))
      && (RookShape(dx, dy) && !PathClear(g, from, to) ==> r == Rejected("rook can't leap over intervening pieces"))
    case Bishop =>
      && (!BishopShape(dx, dy) ==> r == Rejected("invalid bishop move"))
      && (BishopShape(dx, dy) && !PathClear(g, from, to) ==> r == Rejected("bishop can't leap over intervening pieces"))
    case Queen =>
      && (!QueenShape(dx, dy) ==> r == Rejected("invalid queen move"))
      && (QueenShape(dx, dy) && !PathClear(g, from, to) ==> r == Rejected("queen can't leap over intervening pieces"))
    case Pawn => true
  }

  /** The closing checks of `interpret_move`: allied capture, then a promotion offered to a non-promoting move. */
  function Conclude(departure: Position, destination: Position, movingPiece: Piece,
                    captured: Option<Piece>, color: Color, promotionTo: Option<PromotionTarget>): (r: Outcome)
    ensures r.Legal? <==> promotionTo.None? && !(captured.Some? && captured.value.color == color)
    ensures r.Legal? ==> r.move == Move(departure, destination, movingPiece, captured, None)
    ensures captured.Some? && captured.value.color == color ==> r == Rejected("it's not alowed to capture allied piece")
    ensures !(captured.Some? && captured.value.color == color) && promotionTo.Some? ==> r == Rejected("only pawn can be promoted")
  {
    if captured.Some? && captured.value.color == color then Rejected("it's not alowed to capture allied piece")
    else if promotionTo.Some? then Rejected("only pawn can be promoted")
    else Legal(Move(departure, destination, movingPiece, captured, None))
  }

  /** What happens once a pawn's geometry is accepted. */
  function PawnLands(departure: Position, destination: Position, movingPiece: Piece,
                     captured: Option<Piece>, color: Color, promotionTo: Option<PromotionTarget>): (r: Outcome)
    ensures r.Legal? <==> if destination.y == LastRow(color) then promotionTo.Some?
                          else promotionTo.None? && !(captured.Some? && captured.value.color == color)
    ensures r.Legal? ==> r.move == Move(departure, destination, movingPiece, captured,
                                        if promotionTo.Some? then Some(Piece(promotionTo.value, color)) else None)
    ensures destination.y == LastRow(color) && promotionTo.None? ==> r == Rejected("pawn has to be promoted to something")
    ensures destination.y != LastRow(color) && promotionTo.Some? ==> r == Rejected("pawn can't be promoted here")
    ensures destination.y != LastRow(color) && promotionTo.None? && captured.Some? && captured.value.color == color ==>
              r == Rejected("it's not alowed to capture allied piece")
  {
    if destination.y == LastRow(color) then
      if promotionTo.None? then Rejected("pawn has to be promoted to something")
      else Legal(Move(departure, destination, movingPiece, captured, Some(Piece(promotionTo.value, color))))
    else if promotionTo.Some? then Rejected("pawn can't be promoted here")
    else Conclude(departure, destination, movingPiece, captured, color, promotionTo)
  }

  /** The pawn branch of `interpret_move`. */
  function PawnMove(g: Grid, departure: Position, destination: Position, movingPiece: Piece,
                    captured: Option<Piece>, color: Color, promotionTo: Option<PromotionTarget>): (r: Outcome)
    requires captured == Cell(g, destination)
    ensures r.Legal? <==>
              && GeometryAllows(g, Pawn, color, departure, destination)
              && if destination.y == LastRow(color) then promotionTo.Some?
                 else promotionTo.None? && !(captured.Some? && captured.value.color == color)
    ensures r.Legal? ==> r.move == Move(departure, destination, movingPiece, captured,
                                        if promotionTo.Some? then Some(Piece(promotionTo.value, color)) else None)
    ensures GeometryAllows(g, Pawn, color, departure, destination) ==>
              r == PawnLands(departure, destination, movingPiece, captured, color, promotionTo)
    ensures PawnGeometryRejects(g, color, departure, destination, r)
  {
    var dx := destination.x - departure.x;
    var dy := destination.y - departure.y;
    var forward := Forward(color);
    if Abs(dx) == 1 && dy == forward then
      if captured.None? then Rejected("pawn can move diagonally only when capturing")
      else PawnLands(departure, destination, movingPiece, captured, color, promotionTo)
    else if dx == 0 then
      var firstMove := departure.y == PawnHomeRow(color);
      var doubleMove := firstMove && dy == 2 * forward;
      if dy != forward && !doubleMove then Rejected("invalid pawn move")
      else if doubleMove && !PathClear(g, departure, destination) then Rejected("pawn can't leap over intervening piece")
      else if captured.Some? then Rejected("pawn can't capture on forward move")
      else PawnLands(departure, destination, movingPiece, captured, color, promotionTo)
    else Rejected("invalid pawn move")
  }

  /** The king, rook, bishop, knight and queen branches. */
  function OfficerMove(g: Grid, departure: Position, destination: Position, movingPiece: Piece,
                       captured: Option<Piece>, color: Color, promotionTo: Option<PromotionTarget>): (r: Outcome)
    requires movingPiece.typ != Pawn
    ensures r.Legal? <==>
              && GeometryAllows(g, movingPiece.typ, color, departure, destination)
              && promotionTo.None? && !(captured.Some? && captured.value.color == color)
    ensures r.Legal? ==> r.move == Move(departure, destination, movingPiece, captured, None)
  {
    var dx := destination.x - departure.x;
    var dy := destination.y - departure.y;
    match movingPiece.typ
    case King =>
      if Abs(dx) > 1 || Abs(dy) > 1 then Rejected("invalid king move")
      else Conclude(departure, destination, movingPiece, captured, color, promotionTo)
    case Rook =>
      if dx != 0 && dy != 0 then Rejected("invalid rook move")
      else if !PathClear(g, departure, destination) then Rejected("rook can't leap over intervening pieces")
      else Conclude(departure, destination, movingPiece, captured, color, promotionTo)
    case Bishop =>
      if Abs(dx) != Abs(dy) then Rejected("invalid bishop move")
      else if !PathClear(g, departure, destination) then Rejected("bishop can't leap over intervening pieces")
      else Conclude(departure, destination, movingPiece, captured, color, promotionTo)
    case Knight =>
      if !((Abs(dx) == 1 && Abs(dy) == 2) || (Abs(dx) == 2 && Abs(dy) == 1)) then Rejected("invalid knight move")
      else Conclude(departure, destination, movingPiece, captured, color, promotionTo)
    case Queen =>
      if Abs(dx) != Abs(dy) && dx != 0 && dy != 0 then Rejected("invalid queen move")
      else if !PathClear(g, departure, destination) then Rejected("queen can't leap over intervening pieces")
      else Conclude(departure, destination, movingPiece, captured, color, promotionTo)
  }

  /**
   * The messages of the king, rook, bishop, knight and queen branches: one
   * for a wrong shape, one for a piece in the way, and once the geometry is
   * accepted the closing checks.
   */
  lemma OfficerMessages(g: Grid, departure: Position, destination: Position, movingPiece: Piece,
                        captured: Option<Piece>, color: Color, promotionTo: Option<PromotionTarget>)
    requires movingPiece.typ != Pawn
    ensures GeometryAllows(g, movingPiece.typ, color, departure, destination) ==>
              OfficerMove(g, departure, destination, movingPiece, captured, color, promotionTo) ==
                Conclude(departure, destination, movingPiece, captured, color, promotionTo)
    ensures OfficerGeometryRejects(g, movingPiece.typ, departure, destination,
                                   OfficerMove(g, departure, destination, movingPiece, captured, color, promotionTo))
  {
    match movingPiece.typ
    case King => KingMessages(g, departure, destination, movingPiece, captured, color, promotionTo);
    case Knight => KnightMessages(g, departure, destination, movingPiece, captured, color, promotionTo);
    case Rook => RookMessages(g, departure, destination, movingPiece, captured, color, promotionTo);
    case Bishop => BishopMessages(g, departure, destination, movingPiece, captured, color, promotionTo);
    case Queen => QueenMessages(g, departure, destination, movingPiece, captured, color, promotionTo);
  }

  /** The king branch: "invalid king move" off its shape, the closing checks on it. */
  lemma KingMessages(g: Grid, departure: Position, destination: Position, movingPiece: Piece,
                     captured: Option<Piece>, color: Color, promotionTo: Option<PromotionTarget>)
    requires movingPiece.typ == King
    ensures GeometryAllows(g, King, color, departure, destination) ==>
              OfficerMove(g, departure, destination, movingPiece, captured, color, promotionTo) ==
                Conclude(departure, destination, movingPiece, captured, color, promotionTo)
    ensures OfficerGeometryRejects(g, King, departure, destination,
                                   OfficerMove(g, departure, destination, movingPiece, captured, color, promotionTo))
  {
  }

  /** The knight branch: "invalid knight move" off its shape, the closing checks on it. */
  lemma KnightMessages(g: Grid, departure: Position, destination: Position, movingPiece: Piece,
                     captured: Option<Piece>, color: Color, promotionTo: Option<PromotionTarget>)
    requires movingPiece.typ == Knight
    ensures GeometryAllows(g, Knight, color, departure, destination) ==>
              OfficerMove(g, departure, destination, movingPiece, captured, color, promotionTo) ==
                Conclude(departure, destination, movingPiece, captured, color, promotionTo)
    ensures OfficerGeometryRejects(g, Knight, departure, destination,
                                   OfficerMove(g, departure, destination, movingPiece, captured, color, promotionTo))
  {
  }

  /** The rook branch: a wrong shape, a piece in the way, else the closing checks. */
  lemma RookMessages(g: Grid, departure: Position, destination: Position, movingPiece: Piece,
                     captured: Option<Piece>, color: Color, promotionTo: Option<PromotionTarget>)
    requires movingPiece.typ == Rook
    ensures GeometryAllows(g, Rook, color, departure, destination) ==>
              OfficerMove(g, departure, destination, movingPiece, captured, color, promotionTo) ==
                Conclude(departure, destination, movingPiece, captured, color, promotionTo)
    ensures OfficerGeometryRejects(g, Rook, departure, destination,
                                   OfficerMove(g, departure, destination, movingPiece, captured, color, promotionTo))
  {
  }

  /** The bishop branch: a wrong shape, a piece in the way, else the closing checks. */
  lemma BishopMessages(g: Grid, departure: Position, destination: Position, movingPiece: Piece,
                     captured: Option<Piece>, color: Color, promotionTo: Option<PromotionTarget>)
    requires movingPiece.typ == Bishop
    ensures GeometryAllows(g, Bishop, color, departure, destination) ==>
              OfficerMove(g, departure, destination, movingPiece, captured, color, promotionTo) ==
                Conclude(departure, destination, movingPiece, captured, color, promotionTo)
    ensures OfficerGeometryRejects(g, Bishop, departure, destination,
                                   OfficerMove(g, departure, destination, movingPiece, captured, color, promotionTo))
  {
  }

  /** The queen branch: a wrong shape, a piece in the way, else the closing checks. */
  lemma QueenMessages(g: Grid, departure: Position, destination: Position, movingPiece: Piece,
                     captured: Option<Piece>, color: Color, promotionTo: Option<PromotionTarget>)
    requires movingPiece.typ == Queen
    ensures GeometryAllows(g, Queen, color, departure, destination) ==>
              OfficerMove(g, departure, destination, movingPiece, captured, color, promotionTo) ==
                Conclude(departure, destination, movingPiece, captured, color, promotionTo)
    ensures OfficerGeometryRejects(g, Queen, departure, destination,
                                   OfficerMove(g, departure, destination, movingPiece, captured, color, promotionTo))
  {
  }

  /** The checks that open `interpret_move` pass: a piece of the mover's colour leaves its square. */
  predicate OwnPieceMoves(g: Grid, color: Color, departure: Position, destination: Position) {
    departure != destination && Cell(g, departure).Some? && Cell(g, departure).value.color == color
  }

  /** The destination holds a piece of the mover's colour. */
  predicate CapturesAlly(g: Grid, color: Color, destination: Position) {
    Cell(g, destination).Some? && Cell(g, destination).value.color == color
  }

  /**
   * `interpret_move`: a `Move` exactly when the declarative rule holds, and
   * then the move records the moving piece, the captured cell and the
   * promoted piece. It reads the grid and changes nothing.
   */
  function InterpretMove(g: Grid, color: Color, departure: Position, destination: Position,
                         promotionTo: Option<PromotionTarget>): (r: Outcome)
    ensures r.Legal? <==> LegalMove(g, color, departure, destination, promotionTo)
    ensures r.Legal? ==> r.move == RecordedMove(g, color, departure, destination, promotionTo)
    ensures r.Legal? ==> RecordedOn(g, r.move)
    ensures departure == destination ==> r == Rejected("destination is the same as departure")
    ensures departure != destination && Cell(g, departure).None? ==> r == Rejected("departure have no piece")
    ensures departure != destination && Cell(g, departure).Some? && Cell(g, departure).value.color != color ==>
              r == Rejected("can't move enemy piece")
    ensures OwnPieceMoves(g, color, departure, destination) && Cell(g, departure).value.typ == Pawn ==>
              PawnGeometryRejects(g, color, departure, destination, r)
    ensures OwnPieceMoves(g, color, departure, destination) && Cell(g, departure).value.typ != Pawn ==>
              OfficerGeometryRejects(g, Cell(g, departure).value.typ, departure, destination, r)
    ensures OwnPieceMoves(g, color, departure, destination) && Cell(g, departure).value.typ == Pawn
            && GeometryAllows(g, Pawn, color, departure, destination) ==>
              && (destination.y == LastRow(color) && promotionTo.None? ==>
                    r == Rejected("pawn has to be promoted to something"))
              && (destination.y != LastRow(color) && promotionTo.Some? ==>
                    r == Rejected("pawn can't be promoted here"))
              && (destination.y != LastRow(color) && promotionTo.None? && CapturesAlly(g, color, destination) ==>
                    r == Rejected("it's not alowed to capture allied piece"))
    ensures OwnPieceMoves(g, color, departure, destination) && Cell(g, departure).value.typ != Pawn
            && GeometryAllows(g, Cell(g, departure).value.typ, color, departure, destination) ==>
              && (CapturesAlly(g, color, destination) ==> r == Rejected("it's not alowed to capture allied piece"))
              && (!CapturesAlly(g, color, destination) && promotionTo.Some? ==> r == Rejected("only pawn can be promoted"))
  {
    if departure == destination then Rejected("destination is the same as departure")
    else if Cell(g, departure).None? then Rejected("departure have no piece")
    else
      var movingPiece := Cell(g, departure).value;
      if movingPiece.color != color then Rejected("can't move enemy piece")
      else
        var captured := Cell(g, destination);
        if movingPiece.typ == Pawn then PawnMove(g, departure, destination, movingPiece, captured, color, promotionTo)
        else
          OfficerMessages(g, departure, destination, movingPiece, captured, color, promotionTo);
          OfficerMove(g, departure, destination, movingPiece, captured, color, promotionTo)
  }

  /**
   * A promoting pawn may capture a piece of its own colour: the promotion
   * branch returns before the allied-capture check. Here a Black pawn on
   * e2 takes the Black rook on f1 and becomes a queen.
   */
  lemma PromotionCapturesAlly()
    ensures var g := SetCell(SetCell(EmptyGrid(), Position(4, 6), Some(Piece(Pawn, Black))),
                             Position(5, 7), Some(Piece(Rook, Black)));
            InterpretMove(g, Black, Position(4, 6), Position(5, 7), Some(Queen)) ==
              Legal(Move(Position(4, 6), Position(5, 7), Piece(Pawn, Black), Some(Piece(Rook, Black)), Some(Piece(Queen, Black))))
  {
    var g := SetCell(SetCell(EmptyGrid(), Position(4, 6), Some(Piece(Pawn, Black))),
                     Position(5, 7), Some(Piece(Rook, Black)));
    assert Cell(g, Position(4, 6)) == Some(Piece(Pawn, Black));
    assert Cell(g, Position(5, 7)) == Some(Piece(Rook, Black));
  }
}
