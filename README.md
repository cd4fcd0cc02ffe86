# A verified model of the kingdom_chess rules engine

This project models the rules core of the `kingdom_chess` package in Dafny, and proves properties of that model. It also models the board of `chesspy`, the package's older snapshot.

The model covers:

- **Geometry** (`Layout`).
  - Bounds-checked squares.
  - "{file}{rank}" labels.
  - The unit step between two squares.
  - `shift`.
- **Pieces** (`Pieces`): colours, `Color.opposite` and `PieceType.from_char`.
- **Glyph tables and whitespace** (`Text`): the two unicode tables, `str.split`/`"".join` stripping, and `str.join`.
- **The board** (`Boards`).
  - The grid value is eight rows of eight optional pieces, `_grid[y][x]`.
  - `class Board` holds it and writes it cell by cell.
  - `to_mapping`/`from_mapping` and the starting layout.
  - `to_unicode`/`from_unicode` and equality.
- **Moves** (`Moves`).
  - `Move`, `do_move`/`undo_move` as methods on the board, and the `is_path_clear` loop.
  - `interpret_move` as a pure function with its exact error strings.
  - A declarative statement of the piece rules (`LegalMove`) that it is proved to decide.
- **King safety** (`Safety`).
  - `is_position_safe` and `is_king_under_attack`.
  - `deduce_king_state` as the imperative search it is. The loops try every move, apply it, test the king and take it back. It is proved equal to the declarative classification `KingStateOf` and proved to leave the board as it found it.
- **Move notation** (`Notation`): the regular expression of `parse_move_notation`, written as a leftmost-greedy matcher over the lower-cased text.
- **The game** (`Games`).
  - The `Game` object with its four fields.
  - `make_move` with its self-check rollback.
  - The resolution of a notation against the pieces on the board.
- **chesspy** (`ChessPy`).
  - Its three-way `Position` check.
  - Its `Board`, including the four loops of `initialy_filled`.
  - Its column-by-column `from_unicode`, `__str__` and `__eq__`.

Coordinates follow the source. x is the file index (0 = file a). y is the row index: y = 0 is rank 8, where Black starts, and y = 7 is rank 1. Errors are values:

- Move rejections are `Outcome.Rejected(message)`, carrying the source's exact strings.
- Structural errors are `Result.Err`: `ValueError`, `ParseError` and chesspy's `PositionError`.

Where the code differs from what its documentation promises, the model follows the code. In particular, a promoting pawn may capture a piece of its own colour: the promotion branch returns before the allied-capture check (`Moves.PromotionCapturesAlly`). Also, attack and escape enumeration never passes a promotion target, so a pawn move onto its last row never attacks and never escapes (`Safety.PromotingPawnNeverAttacks`).

The `assert` in `direction_to` can never fail (`Layout.DirectionAssertionIsVacuous`). Straight-or-diagonal alignment is therefore a precondition of `Moves.IsPathClear` and `Moves.PathClear`. Every call site in `interpret_move` discharges it.

## Model

| member | source | states |
|---|---|---|
| Layout.MakePosition | kingdom_chess/__init__.py:28-30 | A position exists exactly when both coordinates lie in [0, 8). It then has those coordinates; otherwise the error carries both values. |
| Layout.Find | kingdom_chess/__init__.py:37-38 | `str.find` for one character: -1 exactly when the character is absent, otherwise the index of its first occurrence. |
| Layout.FindDistinct | kingdom_chess/__init__.py:37-38 | In a label string with distinct characters, finding the i-th character gives back i. |
| Layout.FromCoordinate | kingdom_chess/__init__.py:32-41 | A label is accepted exactly when it is two characters: a file of "abcdefgh" followed by a rank of "87654321". The result's label is the input; every other string is rejected with the string itself. |
| Layout.FromCoordinateOfLabel | kingdom_chess/__init__.py:32-41 | Parsing the label of any square gives that square back (a round trip). |
| Layout.Compare | kingdom_chess/__init__.py:60-65 | 0 iff equal, 1 iff x < y, -1 iff y < x. |
| Layout.DirectionTo | kingdom_chess/__init__.py:43-51 | Each component is in {-1, 0, 1} and is the sign of the destination's offset on that axis. |
| Layout.DirectionAssertionIsVacuous | kingdom_chess/__init__.py:45-49 | The asserted condition holds for every pair of squares, even a pair that is neither straight nor diagonal. |
| Layout.Shift | kingdom_chess/__init__.py:53-54 | Succeeds exactly when the shifted coordinates stay on the board, and then moves by (dx, dy). Off the board it fails with `OutOfBoard` of the shifted coordinates. |
| Layout.RowMajorAt | kingdom_chess/__init__.py:226-228 | The k-th square with y outer and x inner has row-major index k. |
| Layout.RowMajorAtIndex | kingdom_chess/__init__.py:226-228 | The row-major index of a square leads back to that square. |
| Layout.ColumnMajorAt | chesspy/__init__.py:123-127 | The k-th square with x outer and y inner is the one with 8x + y = k. |
| Layout.ColumnMajorAtIndex | chesspy/__init__.py:123-127 | The column-major index of a square leads back to that square. |
| Pieces.Opposite | kingdom_chess/__init__.py:106-108 | The opposite colour differs from the colour. |
| Pieces.OppositeInvolutive | kingdom_chess/__init__.py:106-108 | Taking the opposite twice gives the colour back. |
| Pieces.LowersTo | kingdom_chess/__init__.py:89-95 | The characters that `char.lower()` turns into a type's letter: the small letter, its capital, and for the king also U+212A KELVIN SIGN. |
| Pieces.FromChar | kingdom_chess/__init__.py:86-96 | Succeeds exactly when the string is one character that lower-cases to a piece letter, returning that piece's type. Otherwise it fails with the string. |
| Pieces.FromCharOfLetter | kingdom_chess/__init__.py:86-96 | Each type's lower-case letter, and its capital, decode to that type. |
| Text.PieceOfGlyph | kingdom_chess/__init__.py:265-279 | `unicode_to_piece`: the dot is an empty square, U+2654 to U+2659 are the White king, queen, rook, bishop, knight and pawn, and U+265A to U+265F the Black ones. Any other character is missing (the `KeyError`). |
| Text.GlyphOf | kingdom_chess/__init__.py:281-283 | `piece_to_unicode` inverts `unicode_to_piece`: the glyph of a piece (or of an empty cell) decodes back to it. |
| Text.GlyphOfPieceOfGlyph | kingdom_chess/__init__.py:265-283 | Every known glyph is the glyph of what it decodes to. |
| Text.GlyphsAreNotWhitespace | kingdom_chess/__init__.py:265-279 | No glyph is whitespace, so stripping keeps every glyph. |
| Text.StripWhitespace | kingdom_chess/__init__.py:224 | `"".join(s.split())` is no longer than s and contains no whitespace. A text without whitespace is kept whole, and a text of whitespace only becomes empty. |
| Text.StripWhitespaceAppend | kingdom_chess/__init__.py:224 | Stripping distributes over concatenation. |
| Text.StripJoin | kingdom_chess/__init__.py:238-241 | Stripping a join with a whitespace separator concatenates the stripped parts. |
| Text.BlockStartIs | kingdom_chess/__init__.py:238-241 | Block i of a join of width-w parts with a one-character separator starts at (w + 1) * i. |
| Text.BlockShift | kingdom_chess/__init__.py:238-241 | Each block starts one block (w + 1 characters) after the one before it. |
| Text.JoinLength | kingdom_chess/__init__.py:238-241 | Joining n parts of width w with a one-character separator gives (w + 1) * n - 1 characters. |
| Text.JoinCell | kingdom_chess/__init__.py:238-241 | In such a join, character j of part i is at offset j of block i. |
| Text.JoinSeparator | kingdom_chess/__init__.py:238-241 | In such a join, the separator follows every part but the last. |
| Boards.EmptyGrid | kingdom_chess/__init__.py:190-194 | Every cell of a new grid is empty. |
| Boards.SetCell | kingdom_chess/__init__.py:199-200 | Setting a cell changes that cell and no other. |
| Boards.SameCells | kingdom_chess/__init__.py:255-262 | Comparing all 64 cells is true iff the grids are equal. |
| Boards.GridOfMapping | kingdom_chess/__init__.py:214-219 | The board built from a mapping holds each mapped piece on its square and nothing elsewhere. |
| Boards.MappingOf | kingdom_chess/__init__.py:206-212 | The keys are exactly the occupied squares, each mapped to its piece. |
| Boards.ItemsFrom | kingdom_chess/__init__.py:206-212 | The entries from (x, y) on are each an occupied square with its piece, strictly in row-major order, and include every occupied square from (x, y) on. |
| Boards.Items | kingdom_chess/__init__.py:206-212 | `to_mapping().items()` in iteration order: every occupied square once, in row-major order, with its piece. |
| Boards.FromMappingOfToMapping | kingdom_chess/__init__.py:206-219 | `from_mapping(b.to_mapping()) == b`. |
| Boards.ToMappingOfFromMapping | kingdom_chess/__init__.py:206-219 | `from_mapping(m).to_mapping() == m`. |
| Boards.StartingMappingIsStandard | kingdom_chess/__init__.py:114-150 | `STARTING_BOARD_STATE` holds, square by square, the standard layout, with rows 2-5 absent. |
| Boards.StartingRow | kingdom_chess/__init__.py:114-148 | Every square of rows 0, 1, 6 and 7 is a key of the starting mapping and holds its standard piece. |
| Boards.StartingBlackBackRank | kingdom_chess/__init__.py:114-121 | Row 0 holds Black's rook, knight, bishop, queen, king, bishop, knight, rook. |
| Boards.StartingBlackPawnRow | kingdom_chess/__init__.py:123-130 | Row 1 holds eight Black pawns. |
| Boards.StartingWhitePawnRow | kingdom_chess/__init__.py:132-139 | Row 6 holds eight White pawns. |
| Boards.StartingWhiteBackRank | kingdom_chess/__init__.py:141-148 | Row 7 holds White's rook, knight, bishop, queen, king, bishop, knight, rook. |
| Boards.StartingStateIsStandard | kingdom_chess/__init__.py:114-150 | The board built from the starting mapping has the standard layout on every square. |
| Boards.GlyphsOf | kingdom_chess/__init__.py:236-241 | 64 glyphs, the glyph of square p at index 8y + x. |
| Boards.StripRender | kingdom_chess/__init__.py:236-241 | Stripping the whitespace of `to_unicode` leaves exactly the 64 glyphs in row-major order. |
| Boards.StripRowText | kingdom_chess/__init__.py:238-240 | Stripping the whitespace of one rendered row leaves its eight glyphs in order. |
| Boards.GlyphIndex | kingdom_chess/__init__.py:226-230 | Each square has a glyph index in [0, 64). |
| Boards.PositionAt | kingdom_chess/__init__.py:226-230 | The square that receives the k-th glyph has glyph index k. |
| Boards.PositionAtGlyphIndex | kingdom_chess/__init__.py:226-230 | The glyph index of a square and the square of an index are inverse, in either order. |
| Boards.FirstUnknown | kingdom_chess/__init__.py:231-232 | None iff every glyph in the range is known; otherwise the first unknown glyph, which raises `KeyError`. |
| Boards.FirstUnknownSkips | kingdom_chess/__init__.py:231-232 | Skipping known glyphs does not change the first unknown one. |
| Boards.Decode | kingdom_chess/__init__.py:222-233 | `from_unicode`'s computation: strip the whitespace. The first unknown glyph among the first 64 gives `UnknownGlyph`. Otherwise a count other than 64 gives `WrongGlyphCount`. Otherwise the k-th glyph's piece goes on the k-th square of the order. |
| Boards.GridOfGlyphs | kingdom_chess/__init__.py:226-232 | Square p holds what the glyph at its index (in the given order) decodes to. |
| Boards.DecodeRender | kingdom_chess/__init__.py:221-241 | `from_unicode(b.to_unicode()) == b`. |
| Boards.DecodeGlyphsOf | kingdom_chess/__init__.py:221-234 | Any text whose non-whitespace characters are the glyphs of a board in row-major order decodes to that board. |
| Boards.Board.constructor | kingdom_chess/__init__.py:190-194 | A new board is empty. |
| Boards.Board.At | kingdom_chess/__init__.py:196-197 | `__getitem__`: the cell at `grid[p.y][p.x]`. |
| Boards.Board.Set | kingdom_chess/__init__.py:199-200 | `__setitem__` writes that one cell; the new grid is `SetCell` of the old. |
| Boards.Board.ToMapping | kingdom_chess/__init__.py:206-212 | The keys are exactly the occupied squares, with their pieces. |
| Boards.Board.FromMapping | kingdom_chess/__init__.py:214-219 | The loop over the mapping yields a fresh board whose grid is `GridOfMapping(m)`. |
| Boards.Board.InitiallyFilled | kingdom_chess/__init__.py:202-204 | A fresh board with the standard starting layout on every square. |
| Boards.Board.PlaceGlyphs | kingdom_chess/__init__.py:226-232 | The loop puts the k-th glyph on the k-th square in row-major order. It stops at the first unknown glyph, at the end of the text or after 64 glyphs. |
| Boards.Board.FromUnicode | kingdom_chess/__init__.py:221-234 | The result is `Decode(text, RowMajor)`. Errors: the first unknown glyph among the first 64 (`KeyError`), else a count other than 64 (strict `zip`). Success gives a fresh board holding the decoded grid. |
| Boards.RowTextAt | kingdom_chess/__init__.py:239 | A row line is 15 characters: glyph x at 2x, followed by a space except after the last. |
| Boards.Render | kingdom_chess/__init__.py:236-241 | `to_unicode`'s computation: each row's glyphs joined by spaces, the rows joined by newlines, and a final newline. |
| Boards.RenderLength | kingdom_chess/__init__.py:236-241 | The text of a board is 128 characters: eight lines of 15, each ended by a newline. |
| Boards.RenderAt | kingdom_chess/__init__.py:236-241 | A square's glyph is at offset 16y + 2x, followed by a space, or by a newline at the end of a row. |
| Boards.RenderLayout | kingdom_chess/__init__.py:236-241 | The whole layout: 128 characters, with `grid[y][x]`'s glyph at 16y + 2x and a space or, for x = 7, a newline after it. |
| Boards.Board.ToUnicode | kingdom_chess/__init__.py:236-241 | `to_unicode` is 128 characters. `grid[y][x]`'s glyph is at 16y + 2x, followed by a space, or by a newline when x = 7. Stripping the whitespace leaves the 64 glyphs in row-major order. |
| Boards.Board.Equals | kingdom_chess/__init__.py:255-262 | True iff the grids are equal, iff every square holds the same thing. |
| Boards.BoardMappingRoundTrip | kingdom_chess/__init__.py:206-219 | Rebuilding a board from its own mapping gives its grid. |
| Moves.Applied | kingdom_chess/__init__.py:461-464 | `do_move`: the destination gets the promoted piece or the mover, the departure is emptied, and no other cell changes. |
| Moves.Undone | kingdom_chess/__init__.py:467-470 | `undo_move`: the departure gets the mover back, the destination the captured piece, and no other cell changes. |
| Moves.UndoAfterDo | kingdom_chess/__init__.py:461-470 | For a move recorded on the board it was made on, undoing after doing restores the grid exactly. |
| Moves.DoMove | kingdom_chess/__init__.py:461-464 | The board's new grid is `Applied` of the old. |
| Moves.UndoMove | kingdom_chess/__init__.py:467-470 | The board's new grid is `Undone` of the old. |
| Moves.Along | kingdom_chess/__init__.py:611-619 | The k-th square from departure towards destination: step 0 is the departure, and the destination is reached exactly at the distance. |
| Moves.AdjacentPathClear | kingdom_chess/__init__.py:611-619 | Adjacent squares always have a clear path. |
| Moves.ShiftAlong | kingdom_chess/__init__.py:613-618 | Shifting the k-th square by `direction_to` gives the (k+1)-th, so the loop walks the squares between. |
| Moves.IsPathClear | kingdom_chess/__init__.py:611-619 | For aligned squares the loop terminates, and it returns true iff every square strictly between them is empty. |
| Moves.Conclude | kingdom_chess/__init__.py:548-554 | Allied capture is rejected first, then any promotion target. Otherwise the plain move with its captured cell is returned. |
| Moves.PawnLands | kingdom_chess/__init__.py:535-546 | On the last row a move is accepted iff a promotion target is given, and it carries the promoted piece (an allied capture is not checked). Without a target there it gives "pawn has to be promoted to something". Elsewhere a target gives "pawn can't be promoted here", an allied capture gives "it's not alowed to capture allied piece", and otherwise the move is accepted. |
| Moves.PawnMove | kingdom_chess/__init__.py:519-546 | Accepted iff the pawn's geometry holds and the landing rule holds. The geometry is: forward one step diagonally onto a piece, one step straight onto an empty square, or two from the home row over an empty square. The recorded move carries the promoted piece. When the geometry holds the result is `PawnLands`. Otherwise it is the message of the failed check (`PawnGeometryRejects`): diagonal onto an empty square, any other shape, a leap over a piece, or a forward move onto a piece. |
| Moves.OfficerMove | kingdom_chess/__init__.py:497-518 | For king, rook, bishop, knight and queen: accepted iff the shape holds (with a clear path for rook, bishop and queen), no target is given and nothing allied is captured. |
| Moves.OfficerMessages | kingdom_chess/__init__.py:497-518 | For every non-pawn: when the geometry holds, the result is `Conclude`'s. Otherwise it is the piece's own message (`OfficerGeometryRejects`): "invalid <piece> move" for a wrong shape, "<piece> can't leap over intervening pieces" for a blocked path. |
| Moves.KingMessages | kingdom_chess/__init__.py:498-500 | The king branch: "invalid king move" off the one-step shape, else the closing checks. |
| Moves.KnightMessages | kingdom_chess/__init__.py:511-513 | The knight branch: "invalid knight move" off the L shape, else the closing checks. |
| Moves.RookMessages | kingdom_chess/__init__.py:501-505 | The rook branch: a wrong shape, then a blocked path, else the closing checks. |
| Moves.BishopMessages | kingdom_chess/__init__.py:506-510 | The bishop branch: a wrong shape, then a blocked path, else the closing checks. |
| Moves.QueenMessages | kingdom_chess/__init__.py:514-518 | The queen branch: a wrong shape, then a blocked path, else the closing checks. |
| Moves.InterpretMove | kingdom_chess/__init__.py:476-554 | A `Move` exactly when `LegalMove` holds, recording the mover, the captured cell and the promoted piece. Every rejection message is fixed, in the source's order. First come same square, empty departure and enemy piece. Then come each piece's geometry messages. A pawn then gets the two promotion messages or the allied capture. Any other piece gets the allied capture, then "only pawn can be promoted". |
| Moves.PromotionCapturesAlly | kingdom_chess/__init__.py:535-549 | A Black pawn on e2 capturing the Black rook on f1 with promotion to a queen is accepted. |
| Safety.IsPositionSafe | kingdom_chess/__init__.py:586-597 | True iff no piece of the enemy colour has a promotion-less legal move onto the square. |
| Safety.PromotingPawnNeverAttacks | kingdom_chess/__init__.py:591-597 | A pawn move onto its last row without a promotion is always rejected, so such a pawn never attacks. |
| Safety.FirstKingFrom | kingdom_chess/__init__.py:605-606 | The first entry from i holding that colour's king, and none before it; None iff there is none. |
| Safety.FindKing | kingdom_chess/__init__.py:605-606 | None iff the colour has no king on the board; otherwise a square holding its king. |
| Safety.FindSoleKing | kingdom_chess/__init__.py:605-606 | With exactly one king of that colour, it is the one found. |
| Safety.IsKingUnderAttack | kingdom_chess/__init__.py:600-608 | False when the colour has no king. Otherwise true iff the king found is attacked by the opposite colour. |
| Safety.SoleKingUnderAttack | kingdom_chess/__init__.py:600-608 | With exactly one king: under attack iff that king is attacked. |
| Safety.PositionsOfColor | kingdom_chess/__init__.py:561-564 | Exactly the listed squares holding a piece of that colour. |
| Safety.OwnPositions | kingdom_chess/__init__.py:561-564 | Every square holding a piece of that colour, and only those. |
| Safety.TryMove | kingdom_chess/__init__.py:576-581 | Do, test, undo: the board is unchanged. The result is true iff that promotion-less move is legal and leaves the king unattacked. |
| Safety.TryMovesFrom | kingdom_chess/__init__.py:565-581 | Over all 64 destinations: the board is unchanged and the result is true iff some move from that square escapes. |
| Safety.DeduceKingState | kingdom_chess/__init__.py:557-583 | The board is unchanged. The result is `KingStateOf`: Safe iff not under attack, otherwise Check iff some promotion-less move of that colour leaves its king unattacked, otherwise Checkmate. |
| Safety.SafeIffNotAttacked | kingdom_chess/__init__.py:557-559 | The state is Safe iff the king is not under attack. |
| Notation.LowerChar | kingdom_chess/__init__.py:391 | ASCII capitals go to the matching small letters, and the Kelvin sign goes to "k". Every other character is kept. |
| Notation.Lower | kingdom_chess/__init__.py:391 | Lower-casing keeps the length and lowers each character. |
| Notation.SplitFileRank | kingdom_chess/__init__.py:386-387 | An optional file group and an optional rank group that together spell the text. |
| Notation.SplitFileRankComplete | kingdom_chess/__init__.py:386-387 | Any such split is found, and the file is taken whenever some split takes it. |
| Notation.SplitPrefix | kingdom_chess/__init__.py:385-387 | Optional piece, file and rank groups that together spell the text. |
| Notation.SplitPrefixComplete | kingdom_chess/__init__.py:385-387 | Any such split is found, greedy in the piece group and then in the file group. |
| Notation.SplitPromotion | kingdom_chess/__init__.py:389 | The text is the core followed by the "/"-prefixed promotion group, which is empty or a letter of "qrbn". |
| Notation.MatchCore | kingdom_chess/__init__.py:385-389 | A match ending in the `[a-h][1-8]` destination fits the whole text. |
| Notation.MatchNotation | kingdom_chess/__init__.py:383-396 | Any groups `re.fullmatch` returns fit the pattern and spell out the whole text. |
| Notation.SplitPromotionOf | kingdom_chess/__init__.py:388-389 | A core ending in a rank digit, followed by a promotion group, splits back into the two. |
| Notation.NoPromotionSplit | kingdom_chess/__init__.py:389 | Text ending in a rank digit has an empty promotion group. |
| Notation.PromotionSplit | kingdom_chess/__init__.py:389 | A trailing "/" and promotion letter are split off. |
| Notation.MatchComplete | kingdom_chess/__init__.py:383-396 | Whenever some groups fit the text, a match is found with the same destination and promotion. It is greedy: it takes a piece letter whenever a fit does, and with the same piece it takes a file whenever that fit does. |
| Notation.PawnToB4Example | kingdom_chess/__init__.py:385-388 | "b4" is a pawn move to b4. |
| Notation.BishopToC4Example | kingdom_chess/__init__.py:385-388 | "bc4" is a bishop move to c4. |
| Notation.BishopToB4Example | kingdom_chess/__init__.py:385-388 | "bb4" is a bishop move to b4. |
| Notation.PromotionExample | kingdom_chess/__init__.py:385-389 | "e7e8/q" has departure file e, departure rank 7, destination e8 and promotion q. |
| Notation.PromotionExampleSplit | kingdom_chess/__init__.py:389 | "e7e8/q" splits into "e7e8" and "q". |
| Notation.PromotionExampleCore | kingdom_chess/__init__.py:385-388 | "e7e8" splits into file e, rank 7 and destination e8. |
| Notation.PrefixExample | kingdom_chess/__init__.py:385-387 | "e7" splits into file e and rank 7, with no piece. |
| Notation.RankNineExample | kingdom_chess/__init__.py:388 | "e9" does not match. |
| Games.PieceLetterDecodes | kingdom_chess/__init__.py:398 | Every piece letter the pattern accepts decodes, and to the type with that letter. |
| Games.DecodePiece | kingdom_chess/__init__.py:398 | The named type, or a pawn when the group is empty. |
| Games.DecodeIndex | kingdom_chess/__init__.py:401-402 | None iff the group is empty; otherwise the index whose label is the group. |
| Games.DecodePromotion | kingdom_chess/__init__.py:404-408 | None iff the group is empty; otherwise the type with that letter. |
| Games.DecodeGroups | kingdom_chess/__init__.py:398-408 | The request names that piece in the mover's colour, the file and rank filters as written, the square labelled by the destination, and the promotion. |
| Games.CandidatesFrom | kingdom_chess/__init__.py:410-426 | Each candidate is the recorded move of a piece the request accepts, in strictly increasing row-major order. |
| Games.CandidatesCover | kingdom_chess/__init__.py:410-426 | Every accepted entry has its move among the candidates. |
| Games.Prepend | kingdom_chess/__init__.py:417-426 | A newly accepted move in front keeps the candidates accepted and ordered. |
| Games.Candidates | kingdom_chess/__init__.py:410-426 | Exactly the accepted pieces' moves: all are accepted, every accepted piece appears, and no departure appears twice. |
| Games.Resolve | kingdom_chess/__init__.py:428-434 | The move when exactly one piece is accepted. "invalid move" iff none is. "ambiguous move notation" only when two distinct pieces are. No other outcome. |
| Games.ResolveComplete | kingdom_chess/__init__.py:428-434 | Conversely, a sole accepted piece gives its move, and two accepted pieces make the notation ambiguous. |
| Games.ResolveNotation | kingdom_chess/__init__.py:382-434 | "invalid move notation" iff no groups fit the lower-cased text. When the greedy `MatchNotation` succeeds, the result is `Resolve` of its decoded groups. A move is returned only for a fitting match whose request accepts exactly that piece. No other outcome. |
| Games.Game.constructor | kingdom_chess/__init__.py:335-339 | The fields are set from the arguments, and the cached state is that of the side not to move. The board is unchanged. |
| Games.Game.Corrected | kingdom_chess/__init__.py:335-339 | `__init__` under the corrected reading of the cached state: the fields are set from the arguments and the cached state is that of the side to move. The board is unchanged. |
| Games.Game.Fresh | kingdom_chess/__init__.py:341-343 | The starting layout, White to move, and the cached state of Black. |
| Games.Game.MakeMove | kingdom_chess/__init__.py:362-380 | Accepted iff legal and not leaving the mover's king attacked. An illegal move gives `interpret_move`'s message, and a self-check gives "move leaves king under immediate attack". On rejection, board, colours and cached state are unchanged. On success, the move is applied and the colours swap. The cached state is that of the colour that just moved, so it is always Safe. |
| Games.Game.MakeMoveCorrected | kingdom_chess/__init__.py:362-380 | The same, except the cached state is that of the side now to move. |
| Games.Game.ParseMoveNotation | kingdom_chess/__init__.py:382-434 | Reads the game without changing it. The result is `ResolveNotation` on the current board and moving colour. |
| Games.ThreePieces | kingdom_chess/__init__.py:196-200 | The grid holds exactly the three given pieces on their squares. |
| Games.RookLiftIsLegal | kingdom_chess/__init__.py:476-554 | With Black Ke8, White Ra1 and White Ke1, Ra1-a8 is legal and yields the lifted position. |
| Games.WhiteKingSafeAfterLift | kingdom_chess/__init__.py:600-608 | After the lift, White's king is not attacked. |
| Games.RookReachesE8 | kingdom_chess/__init__.py:501-505 | The rook on a8 reaches e8 over the empty b8-d8. |
| Games.BlackKingAttackedAfterLift | kingdom_chess/__init__.py:600-608 | After the lift, Black's king is attacked. |
| Games.KingStepIsLegal | kingdom_chess/__init__.py:498-500 | Ke8-e7 is legal and yields the stepped position. |
| Games.BlackKingSafeAfterStep | kingdom_chess/__init__.py:600-608 | On e7, Black's king is not attacked. |
| Games.BlackEscapesAfterLift | kingdom_chess/__init__.py:566-580 | Ke8-e7 is an escape. |
| Games.CachedStateMissesCheck | kingdom_chess/__init__.py:377-378 | The lift is a safe move after which the mover's state is Safe and Black's is Check. `make_move` caches the former. |
| ChessPy.CheckedPosition | chesspy/__init__.py:20-28 | Accepted iff both coordinates are in [0, 8). Both out gives "invalid values", only x out gives "invalid x value", only y out gives "invalid y value". |
| ChessPy.CheckedPositionAgrees | chesspy/__init__.py:20-28 | chesspy and kingdom_chess accept exactly the same coordinates. |
| ChessPy.Transpose | chesspy/__init__.py:123-127 | Square (x, y) of the transpose holds square (y, x). |
| ChessPy.TransposeInvolutive | chesspy/__init__.py:123-127 | Transposing twice gives the grid back. |
| ChessPy.DecodeRenderTransposes | chesspy/__init__.py:118-137 | `from_unicode(str(b))` is the transpose of b. |
| ChessPy.DecodeGlyphsTransposes | chesspy/__init__.py:118-131 | Any text whose non-whitespace characters are the glyphs of a board in row-major order is read back as its transpose. |
| ChessPy.RoundTripIffSymmetric | chesspy/__init__.py:118-137 | The text round trip returns b iff b is symmetric about the diagonal. |
| ChessPy.QueenComesBackTransposed | chesspy/__init__.py:123-129 | A black queen rendered on (1, 0) is read back on (0, 1). |
| ChessPy.Board.constructor | chesspy/__init__.py:78-81 | All 64 cells are empty. |
| ChessPy.Board.At | chesspy/__init__.py:83-84 | `__getitem__`: the cell at `grid[p.y][p.x]`. |
| ChessPy.Board.Set | chesspy/__init__.py:86-87 | Writes that one cell and no other. |
| ChessPy.Board.InitiallyFilled | chesspy/__init__.py:89-116 | Four loops fill rows 0 and 7 with the back ranks and rows 1 and 6 with pawns. The fresh board equals the standard layout on every square, rows 2-5 empty. |
| ChessPy.Board.PlaceGlyphs | chesspy/__init__.py:123-129 | The loop puts the k-th glyph on square (k div 8, k mod 8). It stops at the first unknown glyph, at the end of the text or after 64 glyphs. |
| ChessPy.Board.FromUnicode | chesspy/__init__.py:118-131 | The result is `Decode(text, ColumnMajor)`, with the same two errors as kingdom_chess. Success gives a fresh board holding the decoded grid. |
| ChessPy.Board.ToString | chesspy/__init__.py:133-137 | `__str__` is 128 characters. `grid[y][x]`'s glyph is at 16y + 2x, followed by a space, or by a newline when x = 7. Stripping the whitespace leaves the 64 glyphs in row-major order. |
| ChessPy.Board.Equals | chesspy/__init__.py:139-146 | True iff the grids are equal, iff every square holds the same thing. |

## Left out

- `play()`: an interactive loop over standard input and output, with no rules of its own.
- `to_unicode_with_coordinates`: a display-only rendering with labels and rotation.
- The `BoardModel` abstract base class, `__hash__`, the `board`/`moving_color`/`enemy_color`/`enemy_king_state` properties, and the dataclass and enum machinery.
  - The model uses `Board` and the `Game` fields directly.
  - `__eq__` returning `NotImplemented` for a non-board is not modelled, since Dafny's types rule it out.
- The text of the `ValueError` messages. The model keeps which error occurs and its arguments, but not the formatted message or `repr`.
- Notation.Lower: Python's `str.lower()` is modelled only for ASCII capitals and U+212A KELVIN SIGN, which lowers to "k". Every other character is kept. No other character lowers to a character the notation pattern can match, so a fullmatch succeeds or fails the same way.
- Notation.MatchNotation: the greedy match is proved for the first two optional groups (piece, then file). Once those are fixed, the rank group is determined by the text, so nothing further is claimed.
- Safety.FindKing: with several kings of one colour, only the first in `to_mapping` order is examined, as in the source. The contract does not enumerate the others.
- Games.Game.ParseMoveNotation: its contract only says it is `ResolveNotation` on the game's board and moving colour. The properties of the result are stated on `Games.ResolveNotation`, which follows the greedy match. The match is stated on `Notation.MatchNotation`. The candidate search is stated on `Games.Resolve`.
- Python's object identity (`is`) and truthiness are modelled by value equality and by `Option`.

## Findings

| source | as written | input that shows it | evidently intended | confidence | as-written member | corrected member |
|---|---|---|---|---|---|---|
| kingdom_chess/__init__.py:377-378 | After swapping the colours, `make_move` caches `deduce_king_state` of the new `_enemy_color`. That is the colour that just moved, whose king the move was checked to leave unattacked, so the cached state is always SAFE. | Black king e8, White rook a1, White king e1; White plays a1-a8. Black is then in check and can escape with Ke8-e7, yet SAFE is cached. | Classify the side that moves next, the `next_moving_color` the function's parameter names. Here that gives CHECK. `__init__` (335-339) caches the side not to move, so `Games.Game.constructor` is kept as written and `Games.Game.Corrected` is its counterpart under this reading. Under this reading `play()`'s "CHECKMATE: {moving_color} won!" (317-319) names the mated side, so that message would need `enemy_color` instead. | not executed | Games.Game.MakeMove, Games.CachedStateMissesCheck | Games.Game.MakeMoveCorrected, Games.Game.Corrected |
| chesspy/__init__.py:123-129 | `from_unicode` lists positions with x outer and y inner. That is the transpose of the row-by-row order of `__str__` and of what tests/test_chesspy.py:183-265 expects. | A board with a black queen on (1, 0): `from_unicode(str(board))` puts the queen on (0, 1). | y outer, x inner, as the later `kingdom_chess` `from_unicode` does, so that reading back a rendered board gives the board. | not executed | ChessPy.Board.FromUnicode, ChessPy.QueenComesBackTransposed | Boards.Board.FromUnicode, Boards.DecodeRender |
