/**
 * The game of kingdom_chess: the `Game` object (board, side to move, cached
 * king state), `make_move` and the resolution of a move written in
 * notation against the pieces on the board.
 */
module Games {
  import opened Common
  import opened Layout
  import opened Pieces
  import opened Boards
  import opened Moves
  import opened Safety
  import opened Notation

  /** A legal move that does not leave the mover's own king attacked. */
  ghost predicate SafeMove(g: Grid, color: Color, from: Position, to: Position, promotionTo: Option<PromotionTarget>) {
    && LegalMove(g, color, from, to, promotionTo)
    && !IsKingUnderAttack(Applied(g, RecordedMove(g, color, from, to, promotionTo)), color)
  }

  // Notation resolution ---------------------------------------------------

  /** What the captured groups of a notation ask for. */
  datatype Request = Request(
    piece: Piece,
    departureX: Option<Coord>,
    departureY: Option<Coord>,
    destination: Position,
    promotionTo: Option<PromotionTarget>)

  /** A one-letter piece group names a piece type for `PieceType.from_char`. */
  lemma PieceLetterDecodes(c: char)
    requires c in PieceLetters
    ensures FromChar([c]).Ok? && Letter(FromChar([c]).value) == c
  {
    var t: PieceType :| Letter(t) == c;
    assert LowersTo([c][0], t);
  }

  /** `PieceType.from_char` of a piece group, a pawn when the group is empty. */
  function DecodePiece(group: string): (t: PieceType)
    requires InClass(group, PieceLetters)
    ensures group == "" ==> t == Pawn
    ensures group != "" ==> [Letter(t)] == group
  {
    if group == "" then Pawn
    else
      PieceLetterDecodes(group[0]);
      assert group == [group[0]];
      FromChar(group).value
  }

  /** `labels.find` of a one-letter group, None when the group is empty. */
  function DecodeIndex(group: string, labels: string): (i: Option<Coord>)
    requires |labels| == 8 && InClass(group, labels)
    ensures i.None? <==> group == ""
    ensures i.Some? ==> [labels[i.value]] == group
  {
    if group == "" then None
    else
      var k := Find(labels, group[0]);
      assert group == [group[0]];
      Some(k)
  }

  /** The promotion target of a promotion group, None when the group is empty. */
  function DecodePromotion(group: string): (t: Option<PromotionTarget>)
    requires InClass(group, PromotionLetters)
    ensures t.None? <==> group == ""
    ensures t.Some? ==> [Letter(t.value)] == group
  {
    if group == "" then None
    else
      PieceLetterDecodes(group[0]);
      assert group == [group[0]];
      var typ := FromChar(group).value;
      assert typ != King && typ != Pawn;
      Some(typ)
  }

  /**
   * The groups decoded as `parse_move_notation` does: the piece type, the
   * file and rank filters through `FILES.find` and `RANKS.find`, the
   * destination through `from_coordinate`, and the promotion target.
   */
  function DecodeGroups(m: Groups, color: Color): (req: Request)
    requires WellFormed(m)
    ensures req.piece == Piece(DecodePiece(m.piece), color)
    ensures req.departureX.None? <==> m.departureFile == ""
    ensures req.departureX.Some? ==> [Files[req.departureX.value]] == m.departureFile
    ensures req.departureY.None? <==> m.departureRank == ""
    ensures req.departureY.Some? ==> [Ranks[req.departureY.value]] == m.departureRank
    ensures Label(req.destination) == m.destination
    ensures req.promotionTo.None? <==> m.promotionTo == ""
    ensures req.promotionTo.Some? ==> [Letter(req.promotionTo.value)] == m.promotionTo
  {
    assert InClass(m.departureRank, Ranks) && m.destination[1] in Ranks;
    var destination := FromCoordinate(m.destination).value;
    Request(Piece(DecodePiece(m.piece), color), DecodeIndex(m.departureFile, Files),
            DecodeIndex(m.departureRank, Ranks), destination, DecodePromotion(m.promotionTo))
  }

  /** A piece on p that the request singles out and that can make the move. */
  predicate Accepts(g: Grid, color: Color, req: Request, p: Position) {
    && Cell(g, p) == Some(req.piece)
    && (req.departureX.None? || p.x == req.departureX.value)
    && (req.departureY.None? || p.y == req.departureY.value)
    && LegalMove(g, color, p, req.destination, req.promotionTo)
  }

  /**
   * `all_potential_moves` over a stretch of `to_mapping` entries: the move
   * of every accepted piece, in the entries' order.
   */
  function CandidatesFrom(g: Grid, color: Color, req: Request, items: seq<(Position, Piece)>): (s: seq<Move>)
    requires forall i | 0 <= i < |items| :: Cell(g, items[i].0) == Some(items[i].1)
    requires forall i, j | 0 <= i < j < |items| :: Before(items[i].0, items[j].0)
    ensures forall k | 0 <= k < |s| ::
              Accepts(g, color, req, s[k].departure) &&
              s[k] == RecordedMove(g, color, s[k].departure, req.destination, req.promotionTo)
    ensures forall k, l | 0 <= k < l < |s| :: Before(s[k].departure, s[l].departure)
    ensures |items| > 0 ==> forall k | 0 <= k < |s| :: s[k].departure == items[0].0 || Before(items[0].0, s[k].departure)
  {
    if items == [] then []
    else
      var rest := CandidatesFrom(g, color, req, items[1..]);
      var p := items[0].0;
      var outcome := InterpretMove(g, color, p, req.destination, req.promotionTo);
      assert forall k | 0 <= k < |rest| :: Before(p, rest[k].departure) by {
        if |items| > 1 {
          assert Before(p, items[1].0);
        }
      }
      if Selects(req, items[0]) && outcome.Legal? then
        Prepend(g, color, req, p, outcome.move, rest);
        [outcome.move] + rest
      else
        rest
  }

  /** The filter of `potential_moving_pieces_positions`: the piece asked for, on the file and rank asked for. */
  predicate Selects(req: Request, item: (Position, Piece)) {
    && item.1 == req.piece
    && (req.departureX.None? || item.0.x == req.departureX.value)
    && (req.departureY.None? || item.0.y == req.departureY.value)
  }

  /** Every accepted entry has its move among the candidates. */
  lemma {:induction false} CandidatesCover(g: Grid, color: Color, req: Request, items: seq<(Position, Piece)>, i: int)
    requires forall i | 0 <= i < |items| :: Cell(g, items[i].0) == Some(items[i].1)
    requires forall i, j | 0 <= i < j < |items| :: Before(items[i].0, items[j].0)
    requires 0 <= i < |items| && Accepts(g, color, req, items[i].0)
    ensures exists k | 0 <= k < |CandidatesFrom(g, color, req, items)| ::
              CandidatesFrom(g, color, req, items)[k].departure == items[i].0
    decreases i
  {
    var s := CandidatesFrom(g, color, req, items);
    if i == 0 {
      assert s[0].departure == items[0].0;
    } else {
      var rest := CandidatesFrom(g, color, req, items[1..]);
      assert items[i] == items[1..][i - 1];
      CandidatesCover(g, color, req, items[1..], i - 1);
      var k :| 0 <= k < |rest| && rest[k].departure == items[i].0;
      assert s == rest || (|s| > 0 && s[1..] == rest);
      if s != rest {
        assert s[k + 1] == s[1..][k];
      }
    }
  }

  /** Putting the move from p in front of later candidates keeps them accepted, covering and ordered. */
  lemma Prepend(g: Grid, color: Color, req: Request, p: Position, m: Move, rest: seq<Move>)
    requires m.departure == p && Accepts(g, color, req, p)
    requires m == RecordedMove(g, color, p, req.destination, req.promotionTo)
    requires forall k | 0 <= k < |rest| ::
               Accepts(g, color, req, rest[k].departure) &&
               rest[k] == RecordedMove(g, color, rest[k].departure, req.destination, req.promotionTo)
    requires forall k | 0 <= k < |rest| :: Before(p, rest[k].departure)
    requires forall k, l | 0 <= k < l < |rest| :: Before(rest[k].departure, rest[l].departure)
    ensures var s := [m] + rest;
            && (forall k | 0 <= k < |s| ::
                  Accepts(g, color, req, s[k].departure) &&
                  s[k] == RecordedMove(g, color, s[k].departure, req.destination, req.promotionTo))
            && (forall k, l | 0 <= k < l < |s| :: Before(s[k].departure, s[l].departure))
            && (forall k | 0 <= k < |s| :: s[k].departure == p || Before(p, s[k].departure))
            && (forall j | 0 <= j < |rest| :: s[j + 1] == rest[j])
  {
    var s := [m] + rest;
    forall j | 0 <= j < |rest| ensures s[j + 1] == rest[j] {
    }
  }

  /** The candidate moves of a request, in `to_mapping` order. */
  function Candidates(g: Grid, color: Color, req: Request): (s: seq<Move>)
    ensures forall k | 0 <= k < |s| ::
              Accepts(g, color, req, s[k].departure) &&
              s[k] == RecordedMove(g, color, s[k].departure, req.destination, req.promotionTo)
    ensures forall p | Accepts(g, color, req, p) :: exists k | 0 <= k < |s| :: s[k].departure == p
    ensures forall k, l | 0 <= k < l < |s| :: s[k].departure != s[l].departure
  {
    var items := Items(g);
    var s := CandidatesFrom(g, color, req, items);
    assert forall p | Accepts(g, color, req, p) :: exists k | 0 <= k < |s| :: s[k].departure == p by {
      forall p | Accepts(g, color, req, p) ensures exists k | 0 <= k < |s| :: s[k].departure == p {
        assert Occupied(g, p);
        var i :| 0 <= i < |items| && items[i].0 == p;
        CandidatesCover(g, color, req, items, i);
      }
    }
    s
  }

  /** Exactly one piece is accepted, the one on p. */
  ghost predicate OnlyAccepted(g: Grid, color: Color, req: Request, p: Position) {
    Accepts(g, color, req, p) && forall q | Accepts(g, color, req, q) :: q == p
  }

  /**
   * The outcome of the candidate list: the move of the only candidate; "invalid move" with no
   * candidate and "ambiguous move notation" with more than one.
   */
  function Resolve(g: Grid, color: Color, req: Request): (r: Outcome)
    ensures r.Legal? ==> OnlyAccepted(g, color, req, r.move.departure)
    ensures r.Legal? ==> r.move == RecordedMove(g, color, r.move.departure, req.destination, req.promotionTo)
    ensures r == Rejected("invalid move") <==> forall p :: !Accepts(g, color, req, p)
    ensures r == Rejected("ambiguous move notation") ==>
              exists p, q :: p != q && Accepts(g, color, req, p) && Accepts(g, color, req, q)
    ensures r.Legal? || r == Rejected("invalid move") || r == Rejected("ambiguous move notation")
  {
    var moves := Candidates(g, color, req);
    if |moves| == 1 then
      assert forall q | Accepts(g, color, req, q) :: q == moves[0].departure;
      Legal(moves[0])
    else if |moves| == 0 then Rejected("invalid move")
    else
      assert Accepts(g, color, req, moves[0].departure) && Accepts(g, color, req, moves[1].departure);
      Rejected("ambiguous move notation")
  }

  /** The converse: a unique accepted piece is the move returned; two make the notation ambiguous. */
  lemma ResolveComplete(g: Grid, color: Color, req: Request)
    ensures forall p | OnlyAccepted(g, color, req, p) ::
              Resolve(g, color, req) == Legal(RecordedMove(g, color, p, req.destination, req.promotionTo))
    ensures (exists p, q :: p != q && Accepts(g, color, req, p) && Accepts(g, color, req, q)) ==>
              Resolve(g, color, req) == Rejected("ambiguous move notation")
  {
    var r := Resolve(g, color, req);
    forall p | OnlyAccepted(g, color, req, p)
      ensures r == Legal(RecordedMove(g, color, p, req.destination, req.promotionTo))
    {
      assert r != Rejected("invalid move") by {
        assert Accepts(g, color, req, p);
      }
    }
  }

  /**
   * `parse_move_notation`: lower-case the notation, match the pattern,
   * decode the groups and resolve them; "invalid move notation" when the
   * pattern does not match.
   */
  function ResolveNotation(g: Grid, color: Color, notation: string): (r: Outcome)
    ensures r == Rejected("invalid move notation") <==> forall m :: !Fits(Lower(notation), m)
    ensures r.Legal? ==>
              exists m :: && Fits(Lower(notation), m)
                          && OnlyAccepted(g, color, DecodeGroups(m, color), r.move.departure)
                          && r.move == RecordedMove(g, color, r.move.departure, DecodeGroups(m, color).destination,
                                                    DecodeGroups(m, color).promotionTo)
    ensures r.Legal? || r == Rejected("invalid move notation") || r == Rejected("invalid move")
            || r == Rejected("ambiguous move notation")
    ensures MatchNotation(Lower(notation)).Some? ==>
              r == Resolve(g, color, DecodeGroups(MatchNotation(Lower(notation)).value, color))
  {
    var s := Lower(notation);
    match MatchNotation(s)
    case None =>
      assert forall m :: !Fits(s, m) by {
        forall m ensures !Fits(s, m) {
          if WellFormed(m) && s == Spelled(m) {
            MatchComplete(s, m);
          }
        }
      }
      Rejected("invalid move notation")
    case Some(m) =>
      assert Fits(s, m);
      Resolve(g, color, DecodeGroups(m, color))
  }

  // The game object --------------------------------------------------------

  class Game {
    var board: Board
    var movingColor: Color
    var enemyColor: Color
    var enemyKingState: KingState

    /** `enemy_color` is always the opposite of `moving_color`. */
    ghost predicate Valid()
      reads this
    {
      enemyColor == Opposite(movingColor)
    }

    /** `Game(board, moving_color)`: the king state of the side not to move is deduced at once. */
    constructor (board: Board, movingColor: Color)
      modifies board
      ensures Valid()
      ensures this.board == board && this.movingColor == movingColor
      ensures board.grid == old(board.grid)
      ensures enemyKingState == KingStateOf(board.grid, Opposite(movingColor))
    {
      var state := DeduceKingState(board, Opposite(movingColor));
      this.board := board;
      this.movingColor := movingColor;
      enemyColor := Opposite(movingColor);
      enemyKingState := state;
    }

    /**
     * `Game(board, moving_color)` under the corrected reading of
     * `enemy_king_state`: the king state of the side to move is deduced.
     */
    constructor Corrected(board: Board, movingColor: Color)
      modifies board
      ensures Valid()
      ensures this.board == board && this.movingColor == movingColor
      ensures board.grid == old(board.grid)
      ensures enemyKingState == KingStateOf(board.grid, movingColor)
    {
      var state := DeduceKingState(board, movingColor);
      this.board := board;
      this.movingColor := movingColor;
      enemyColor := Opposite(movingColor);
      enemyKingState := state;
    }

    /** `Game.fresh`: the starting layout, White to move. */
    static method Fresh() returns (game: Game)
      ensures fresh(game) && fresh(game.board)
      ensures game.Valid() && game.movingColor == White
      ensures forall p :: game.board.At(p) == StartingCell(p)
      ensures game.enemyKingState == KingStateOf(game.board.grid, Black)
    {
      var b := Board.InitiallyFilled();
      game := new Game(b, White);
    }

    /**
     * `make_move` as written: validate, apply, take the move back when it
     * leaves the mover's king attacked, else swap the colours and cache
     * `deduce_king_state` of the new `enemy_color` -- the colour that has
     * just moved, whose king the move was checked to leave unattacked, so
     * the cached state is always SAFE.
     */
    method MakeMove(departure: Position, destination: Position, promotionTo: Option<PromotionTarget>)
      returns (r: Outcome)
      requires Valid()
      modifies this, board
      ensures Valid() && board == old(board)
      ensures r.Legal? <==> SafeMove(old(board.grid), old(movingColor), departure, destination, promotionTo)
      ensures !LegalMove(old(board.grid), old(movingColor), departure, destination, promotionTo) ==>
                r == InterpretMove(old(board.grid), old(movingColor), departure, destination, promotionTo)
      ensures LegalMove(old(board.grid), old(movingColor), departure, destination, promotionTo) && r.Rejected? ==>
                r == Rejected("move leaves king under immediate attack")
      ensures r.Rejected? ==> && board.grid == old(board.grid) && movingColor == old(movingColor)
                              && enemyKingState == old(enemyKingState)
      ensures r.Legal? ==> && r.move == RecordedMove(old(board.grid), old(movingColor), departure, destination, promotionTo)
                           && board.grid == Applied(old(board.grid), r.move)
                           && movingColor == Opposite(old(movingColor))
                           && enemyKingState == KingStateOf(board.grid, old(movingColor))
                           && enemyKingState == Safe
    {
      var outcome := InterpretMove(board.grid, movingColor, departure, destination, promotionTo);
      if outcome.Rejected? {
        return outcome;
      }
      var move := outcome.move;
      UndoAfterDo(board.grid, move);
      DoMove(move, board);
      if IsKingUnderAttack(board.grid, movingColor) {
        UndoMove(move, board);
        return Rejected("move leaves king under immediate attack");
      }
      movingColor, enemyColor := enemyColor, movingColor;
      OppositeInvolutive(movingColor);
      enemyKingState := DeduceKingState(board, enemyColor);
      SafeIffNotAttacked(board.grid, enemyColor);
      return outcome;
    }

    /**
     * `make_move` with the state cached for the side that moves next, the
     * colour whose king the move may have attacked.
     */
    method MakeMoveCorrected(departure: Position, destination: Position, promotionTo: Option<PromotionTarget>)
      returns (r: Outcome)
      requires Valid()
      modifies this, board
      ensures Valid() && board == old(board)
      ensures r.Legal? <==> SafeMove(old(board.grid), old(movingColor), departure, destination, promotionTo)
      ensures !LegalMove(old(board.grid), old(movingColor), departure, destination, promotionTo) ==>
                r == InterpretMove(old(board.grid), old(movingColor), departure, destination, promotionTo)
      ensures LegalMove(old(board.grid), old(movingColor), departure, destination, promotionTo) && r.Rejected? ==>
                r == Rejected("move leaves king under immediate attack")
      ensures r.Rejected? ==> && board.grid == old(board.grid) && movingColor == old(movingColor)
                              && enemyKingState == old(enemyKingState)
      ensures r.Legal? ==> && r.move == RecordedMove(old(board.grid), old(movingColor), departure, destination, promotionTo)
                           && board.grid == Applied(old(board.grid), r.move)
                           && movingColor == Opposite(old(movingColor))
                           && enemyKingState == KingStateOf(board.grid, movingColor)
    {
      var outcome := InterpretMove(board.grid, movingColor, departure, destination, promotionTo);
      if outcome.Rejected? {
        return outcome;
      }
      var move := outcome.move;
      UndoAfterDo(board.grid, move);
      DoMove(move, board);
      if IsKingUnderAttack(board.grid, movingColor) {
        UndoMove(move, board);
        return Rejected("move leaves king under immediate attack");
      }
      movingColor, enemyColor := enemyColor, movingColor;
      OppositeInvolutive(movingColor);
      enemyKingState := DeduceKingState(board, movingColor);
      return outcome;
    }

    /** `Game.parse_move_notation`, on the current board and side to move. */
    function ParseMoveNotation(notation: string): (r: Outcome)
      reads this, board
      ensures r == ResolveNotation(board.grid, movingColor, notation)
    {
      ResolveNotation(board.grid, movingColor, notation)
    }
  }

  // The cached king state: a witness ------------------------------------------

  /** A board holding just three pieces, on three different squares. */
  function ThreePieces(a: Position, pa: Piece, b: Position, pb: Piece, c: Position, pc: Piece): (g: Grid)
    requires a != b && b != c && a != c
    ensures forall p :: Cell(g, p) == if p == a then Some(pa) else if p == b then Some(pb)
                                      else if p == c then Some(pc) else None
  {
    SetCell(SetCell(SetCell(EmptyGrid(), a, Some(pa)), b, Some(pb)), c, Some(pc))
  }

  /** Black king e8, White rook a1, White king e1. */
  function RookLiftBefore(): Grid {
    ThreePieces(Position(4, 0), Piece(King, Black), Position(0, 7), Piece(Rook, White),
                Position(4, 7), Piece(King, White))
  }

  /** The same after the rook goes a1-a8. */
  function RookLiftAfter(): Grid {
    ThreePieces(Position(4, 0), Piece(King, Black), Position(0, 0), Piece(Rook, White),
                Position(4, 7), Piece(King, White))
  }

  /** And after the Black king then steps e8-e7. */
  function KingStepAfter(): Grid {
    ThreePieces(Position(4, 1), Piece(King, Black), Position(0, 0), Piece(Rook, White),
                Position(4, 7), Piece(King, White))
  }

  /** Ra1-a8 is legal and produces RookLiftAfter. */
  lemma RookLiftIsLegal()
    ensures LegalMove(RookLiftBefore(), White, Position(0, 7), Position(0, 0), None)
    ensures Applied(RookLiftBefore(), RecordedMove(RookLiftBefore(), White, Position(0, 7), Position(0, 0), None))
            == RookLiftAfter()
  {
    var g := RookLiftBefore();
    assert PathClear(g, Position(0, 7), Position(0, 0)) by {
      forall k | 0 < k < Distance(Position(0, 7), Position(0, 0))
        ensures Cell(g, Along(Position(0, 7), Position(0, 0), k)).None?
      {
        assert Along(Position(0, 7), Position(0, 0), k) == Position(0, 7 - k);
      }
    }
    var m := RecordedMove(g, White, Position(0, 7), Position(0, 0), None);
    GridExtensionality(Applied(g, m), RookLiftAfter());
  }

  /** After the lift White's king, alone on e1, is not attacked. */
  lemma WhiteKingSafeAfterLift()
    ensures !IsKingUnderAttack(RookLiftAfter(), White)
  {
    var g := RookLiftAfter();
    SoleKingUnderAttack(g, White, Position(4, 7));
    forall from: Position ensures !LegalMove(g, Black, from, Position(4, 7), None) {
      if Cell(g, from).Some? && Cell(g, from).value.color == Black {
        assert from == Position(4, 0);
      }
    }
  }

  /** The rook on a8 reaches e8 over the empty b8-d8. */
  lemma RookReachesE8()
    ensures LegalMove(RookLiftAfter(), White, Position(0, 0), Position(4, 0), None)
  {
    var g := RookLiftAfter();
    forall k | 0 < k < Distance(Position(0, 0), Position(4, 0))
      ensures Cell(g, Along(Position(0, 0), Position(4, 0), k)).None?
    {
      assert Along(Position(0, 0), Position(4, 0), k) == Position(k, 0);
    }
  }

  /** After the lift Black's king on e8 is attacked along the eighth rank. */
  lemma BlackKingAttackedAfterLift()
    ensures IsKingUnderAttack(RookLiftAfter(), Black)
  {
    RookReachesE8();
    SoleKingUnderAttack(RookLiftAfter(), Black, Position(4, 0));
  }

  /** The Black king's step e8-e7 is legal and produces KingStepAfter. */
  lemma KingStepIsLegal()
    ensures LegalMove(RookLiftAfter(), Black, Position(4, 0), Position(4, 1), None)
    ensures Applied(RookLiftAfter(), Candidate(RookLiftAfter(), Black, Position(4, 0), Position(4, 1))) == KingStepAfter()
  {
    var g := RookLiftAfter();
    assert LegalMove(g, Black, Position(4, 0), Position(4, 1), None);
    GridExtensionality(Applied(g, Candidate(g, Black, Position(4, 0), Position(4, 1))), KingStepAfter());
  }

  /** On e7 the Black king is attacked neither by the rook on a8 nor by the king on e1. */
  lemma BlackKingSafeAfterStep()
    ensures !IsKingUnderAttack(KingStepAfter(), Black)
  {
    var h := KingStepAfter();
    SoleKingUnderAttack(h, Black, Position(4, 1));
    forall from: Position ensures !LegalMove(h, White, from, Position(4, 1), None) {
      if Cell(h, from).Some? && Cell(h, from).value.color == White {
        assert from == Position(0, 0) || from == Position(4, 7);
      }
    }
  }

  /** Black escapes by Ke8-e7, out of the rook's rank and away from White's king. */
  lemma BlackEscapesAfterLift()
    ensures Escapes(RookLiftAfter(), Black, Position(4, 0), Position(4, 1))
  {
    KingStepIsLegal();
    BlackKingSafeAfterStep();
  }

  /**
   * Ra1-a8 gives check. `make_move` as written caches the state of White,
   * which has just moved (SAFE); the side to move, Black, is in CHECK.
   */
  lemma CachedStateMissesCheck()
    ensures SafeMove(RookLiftBefore(), White, Position(0, 7), Position(0, 0), None)
    ensures KingStateOf(RookLiftAfter(), White) == Safe
    ensures KingStateOf(RookLiftAfter(), Black) == Check
  {
    RookLiftIsLegal();
    WhiteKingSafeAfterLift();
    BlackKingAttackedAfterLift();
    BlackEscapesAfterLift();
  }
}
