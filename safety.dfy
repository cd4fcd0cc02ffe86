/**
 * King safety of kingdom_chess: `is_position_safe`, `is_king_under_attack`
 * and the exhaustive try-and-undo search of `deduce_king_state`.
 */
module Safety {
  import opened Common
  import opened Layout
  import opened Pieces
  import opened Boards
  import opened Moves

  /**
   * Reference notion of attack: some piece of `enemy` has a legal move onto
   * `target` with no promotion target, as the enumeration asks.
   */
  ghost predicate AttackedBy(g: Grid, target: Position, enemy: Color) {
    exists from: Position :: LegalMove(g, enemy, from, target, None)
  }

  /** `is_position_safe`: no enemy piece in `to_mapping` gets a `Move` onto the square. */
  function IsPositionSafe(g: Grid, position: Position, enemy: Color): (r: bool)
    ensures r <==> !AttackedBy(g, position, enemy)
  {
    var items := Items(g);
    assert AttackedBy(g, position, enemy) ==>
             exists i | 0 <= i < |items| :: items[i].1.color == enemy && InterpretMove(g, enemy, items[i].0, position, None).Legal? by {
      if AttackedBy(g, position, enemy) {
        var from :| LegalMove(g, enemy, from, position, None);
        assert Occupied(g, from);
        var i :| 0 <= i < |items| && items[i].0 == from;
        assert items[i].1.color == enemy && InterpretMove(g, enemy, items[i].0, position, None).Legal?;
      }
    }
    !exists i | 0 <= i < |items| :: items[i].1.color == enemy && InterpretMove(g, enemy, items[i].0, position, None).Legal?
  }

  /** A pawn move onto its last row never attacks: enumeration supplies no promotion. */
  lemma PromotingPawnNeverAttacks(g: Grid, from: Position, target: Position, enemy: Color)
    requires Promotes(g, enemy, from, target)
    ensures InterpretMove(g, enemy, from, target, None).Rejected?
  {
  }

  function KingOf(c: Color): Option<Piece> {
    Some(Piece(King, c))
  }

  /** Index of the first king of `color` in items[i..]. */
  function FirstKingFrom(items: seq<(Position, Piece)>, color: Color, i: nat): (r: Option<nat>)
    requires i <= |items|
    ensures r.Some? ==> i <= r.value < |items| && items[r.value].1 == Piece(King, color)
    ensures r.Some? ==> forall j | i <= j < r.value :: items[j].1 != Piece(King, color)
    ensures r.None? ==> forall j | i <= j < |items| :: items[j].1 != Piece(King, color)
    decreases |items| - i
  {
    if i == |items| then None
    else if items[i].1 == Piece(King, color) then Some(i)
    else FirstKingFrom(items, color, i + 1)
  }

  /** The king of `color` met first in `to_mapping` order, if any. */
  function FindKing(g: Grid, color: Color): (r: Option<Position>)
    ensures r.None? ==> forall p :: Cell(g, p) != KingOf(color)
    ensures r.Some? ==> Cell(g, r.value) == KingOf(color)
  {
    var items := Items(g);
    var k := FirstKingFrom(items, color, 0);
    assert k.None? ==> forall p :: Cell(g, p) != KingOf(color) by {
      if k.None? {
        forall p ensures Cell(g, p) != KingOf(color) {
          if Cell(g, p) == KingOf(color) {
            assert Occupied(g, p);
          }
        }
      }
    }
    match k
    case None => None
    case Some(i) => Some(items[i].0)
  }

  /** With exactly one king of that colour, that square is the one found. */
  lemma FindSoleKing(g: Grid, color: Color, king: Position)
    requires Cell(g, king) == KingOf(color)
    requires forall p | p != king :: Cell(g, p) != KingOf(color)
    ensures FindKing(g, color) == Some(king)
  {
  }

  /**
   * `is_king_under_attack`: false when `color` has no king; otherwise whether
   * the first king found is attacked by the opposite colour.
   */
  function IsKingUnderAttack(g: Grid, color: Color): (r: bool)
    ensures (forall p :: Cell(g, p) != KingOf(color)) ==> !r
    ensures FindKing(g, color).Some? ==> (r <==> AttackedBy(g, FindKing(g, color).value, Opposite(color)))
  {
    match FindKing(g, color)
    case None => false
    case Some(p) => !IsPositionSafe(g, p, Opposite(color))
  }

  /** With exactly one king of that colour, "under attack" means that king is attacked. */
  lemma SoleKingUnderAttack(g: Grid, color: Color, king: Position)
    requires Cell(g, king) == KingOf(color)
    requires forall p | p != king :: Cell(g, p) != KingOf(color)
    ensures IsKingUnderAttack(g, color) <==> AttackedBy(g, king, Opposite(color))
  {
    FindSoleKing(g, color, king);
  }

  /** The move `interpret_move` yields for a promotion-less candidate. */
  function Candidate(g: Grid, color: Color, from: Position, to: Position): Move
    requires LegalMove(g, color, from, to, None)
  {
    RecordedMove(g, color, from, to, None)
  }

  /** A promotion-less legal move of `color` after which its king is not attacked. */
  ghost predicate Escapes(g: Grid, color: Color, from: Position, to: Position) {
    LegalMove(g, color, from, to, None) && !IsKingUnderAttack(Applied(g, Candidate(g, color, from, to)), color)
  }

  /** `color` has some escaping move. */
  ghost predicate HasEscape(g: Grid, color: Color) {
    exists from: Position, to: Position :: Escapes(g, color, from, to)
  }

  /** The classification `deduce_king_state` computes. */
  ghost function KingStateOf(g: Grid, color: Color): (s: KingState)
  {
    if !IsKingUnderAttack(g, color) then Safe
    else if HasEscape(g, color) then Check
    else Checkmate
  }

  /** The positions of the entries of items whose piece has `color`, in order. */
  function PositionsOfColor(g: Grid, items: seq<(Position, Piece)>, color: Color): (s: seq<Position>)
    requires forall i | 0 <= i < |items| :: Cell(g, items[i].0) == Some(items[i].1)
    ensures forall j | 0 <= j < |s| :: Cell(g, s[j]).Some? && Cell(g, s[j]).value.color == color
    ensures forall i | 0 <= i < |items| && items[i].1.color == color :: items[i].0 in s
  {
    if items == [] then []
    else
      var rest := PositionsOfColor(g, items[1..], color);
      var s := if items[0].1.color == color then [items[0].0] + rest else rest;
      assert forall i | 0 <= i < |items| && items[i].1.color == color :: items[i].0 in s by {
        forall i | 0 <= i < |items| && items[i].1.color == color ensures items[i].0 in s {
          if i > 0 {
            assert items[i] == items[1..][i - 1];
          }
        }
      }
      s
  }

  /** `pieces_positions`: the squares holding a piece of `color`, in `to_mapping` order. */
  function OwnPositions(g: Grid, color: Color): (s: seq<Position>)
    ensures forall j | 0 <= j < |s| :: Cell(g, s[j]).Some? && Cell(g, s[j]).value.color == color
    ensures forall p {:trigger Occupied(g, p)} | Occupied(g, p) && Cell(g, p).value.color == color :: p in s
  {
    var items := Items(g);
    var s := PositionsOfColor(g, items, color);
    assert forall p {:trigger Occupied(g, p)} | Occupied(g, p) && Cell(g, p).value.color == color :: p in s by {
      forall p | Occupied(g, p) && Cell(g, p).value.color == color ensures p in s {
        var i :| 0 <= i < |items| && items[i].0 == p;
      }
    }
    s
  }

  /**
   * One step of the enumeration: when `from`-`to` is a legal promotion-less
   * move, apply it, ask whether the king of `color` is still attacked, and
   * undo it. The board ends as it started.
   */
  method TryMove(board: Board, color: Color, from: Position, to: Position) returns (escaped: bool)
    modifies board
    ensures board.grid == old(board.grid)
    ensures escaped <==> Escapes(old(board.grid), color, from, to)
  {
    var outcome := InterpretMove(board.grid, color, from, to, None);
    if outcome.Legal? {
      ghost var g := board.grid;
      UndoAfterDo(g, outcome.move);
      DoMove(outcome.move, board);
      escaped := !IsKingUnderAttack(board.grid, color);
      UndoMove(outcome.move, board);
    } else {
      escaped := false;
    }
  }

  /**
   * The enumeration for one departure: every destination, x outer and y
   * inner, stopping at the first escape. The board ends as it started.
   */
  method TryMovesFrom(board: Board, color: Color, from: Position) returns (escaped: bool)
    modifies board
    ensures board.grid == old(board.grid)
    ensures escaped <==> exists to :: Escapes(old(board.grid), color, from, to)
  {
    ghost var g := board.grid;
    var x := 0;
    while x < 8
      invariant 0 <= x <= 8
      invariant board.grid == g
      invariant forall to: Position | to.x < x :: !Escapes(g, color, from, to)
    {
      var y := 0;
      while y < 8
        invariant 0 <= y <= 8
        invariant board.grid == g
        invariant forall to: Position | to.x < x || (to.x == x && to.y < y) :: !Escapes(g, color, from, to)
      {
        escaped := TryMove(board, color, from, Position(x, y));
        if escaped {
          return;
        }
        forall to: Position | to.x < x || (to.x == x && to.y <= y) ensures !Escapes(g, color, from, to) {
          if to.x == x && to.y == y {
            assert to == Position(x, y);
          }
        }
        y := y + 1;
      }
      x := x + 1;
    }
    escaped := false;
  }

  /**
   * `deduce_king_state`: SAFE when the king is not attacked; otherwise try
   * every promotion-less move of `color` (pieces in `to_mapping` order,
   * destinations x outer and y inner), applying and undoing each, and answer
   * CHECK at the first one that leaves the king unattacked, else CHECKMATE.
   * The board ends as it started.
   */
  method DeduceKingState(board: Board, color: Color) returns (state: KingState)
    modifies board
    ensures board.grid == old(board.grid)
    ensures state == KingStateOf(old(board.grid), color)
  {
    if !IsKingUnderAttack(board.grid, color) {
      return Safe;
    }
    ghost var g := board.grid;
    var positions := OwnPositions(board.grid, color);
    var i := 0;
    while i < |positions|
      invariant 0 <= i <= |positions|
      invariant board.grid == g
      invariant forall n, to | 0 <= n < i :: !Escapes(g, color, positions[n], to)
    {
      var escaped := TryMovesFrom(board, color, positions[i]);
      if escaped {
        ghost var to :| Escapes(g, color, positions[i], to);
        assert HasEscape(g, color);
        return Check;
      }
      assert forall to :: !Escapes(g, color, positions[i], to);
      forall n, to | 0 <= n <= i ensures !Escapes(g, color, positions[n], to) {
        if n == i {
          assert !Escapes(g, color, positions[i], to);
        }
      }
      i := i + 1;
    }
    assert !HasEscape(g, color) by {
      forall from: Position, to: Position ensures !Escapes(g, color, from, to) {
        if Occupied(g, from) && Cell(g, from).value.color == color {
          assert from in positions;
        }
      }
    }
    return Checkmate;
  }

  /** SAFE is answered exactly when the king is not under attack. */
  lemma SafeIffNotAttacked(g: Grid, color: Color)
    ensures KingStateOf(g, color) == Safe <==> !IsKingUnderAttack(g, color)
  {
  }
}
