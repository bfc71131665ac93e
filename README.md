# A verified model of the chess.py rules engine

This project models the rules engine of `chess.py` in Dafny. That engine is a single 8×8 board of optional pieces with a move entry that reads algebraic notation. The model covers four parts:

- **Move generation.** `Piece.get_valid_moves` produces the pseudo-legal moves of pawns, knights, bishops, rooks, queens and kings, with no en passant and no self-check filter.
- **Notation decoding.** The decoding in `Game.play_move` handles:
  - `O-O` and `O-O-O`
  - the `+`/`#` strip, the `=X` promotion suffix and the `x` capture marker
  - two-character pawn pushes and three-character pawn captures
  - piece moves with an optional file or rank disambiguator.

  Any `KeyError`/`ValueError`/`IndexError` raised while decoding becomes a failure with "Invalid move syntax".
- **Move application.** `Board.move_piece` and `Board.move_piece_capture` find the unique matching (piece, move) pair and relocate the piece. `Board.castle` and `Board.promote_pawn` are the other two board operations.
- **Queries.** `Board.is_square_under_attack`, and `Board.is_checkmate` with its try-and-undo loop over the king's moves.

## How the model is organised

- `pieces.dfy` (module `Pieces`) holds the values:
  - piece kinds, colours and squares
  - `Piece`, and `Move`, whose fields are column first as in the source
  - the grid `Grid = seq<seq<Option<Piece>>>`
  - `WellFormed`, which says the grid is 8×8
  - `Positioned`, which says every piece stores the square it stands on.
- `movegen.dfy` (module `MoveGen`) holds the move generator as functions over a grid. For each kind, a characterisation lemma describes exactly which moves the generator produces.
- `rules.dfy` (module `BoardRules`) holds the board operations as functions over a grid:
  - the start position
  - the candidate scan, and `MoveResult` for `move_piece`/`move_piece_capture`
  - `CastleOk`/`CastleResult`, `CanPromote`/`Promote`
  - the attack test, and `Checkmate`.

  It also holds the lemmas that relate the scan to an independent definition of an eligible candidate.
- `board.dfy` (module `Chessboard`) is imperative:
  - `Board` is a class whose `grid` field the methods reassign, square by square.
  - The scans are `for` loops with invariants, proved equal to the functions of `BoardRules`.
  - `get_valid_moves` is a family of module-level methods whose loops are proved equal to the `MoveGen` functions.
- `notation.dfy` (module `Notation`) holds the decoder:
  - `Decode` is a pure function from the text to a `Request`.
  - `Render` writes a request back as text.
  - Lemmas prove the round trip and the decoder's edge cases.
- `game.dfy` (module `Games`) holds the dispatch:
  - `Play` is what `play_move` does with a decoded request: success, the new grid and the error message.
  - The `Game` class runs that dispatch against its `Board`.

These behaviours of the source are modelled as written:
- White castles on row 0, which is where the black pieces start.
- A pawn capture's file letter constrains the source row: `(src_file, None)` is passed as (row, column).
- `promote_pawn` wants white pawns on row 7 and black pawns on row 0.
  - Pawns move away from those rows, so a pawn push with a promotion suffix can never succeed (`Games.PromotionNeverSucceeds`).
  - When the push itself was possible, the pawn has already moved and the message is "Invalid pawn promotion".
- The in-check flags start false and nothing sets them. `Game.Valid()` records this, so the in-check test inside `castle` never fails.

Where the prose description of the engine and the code differ, the model follows the code:
- Castling uses fixed squares, not a search for the king and rook.
- There is no self-check filter, and no randomized setup.
- A promotion suffix is ignored on a pawn capture such as `exd8=Q`.
- `e8=K` fails with "Invalid move syntax" before any move is made, because `K` is not in the promotion map.
- Only the two squares the king crosses are tested for attack.
- File letters are lower-cased only in the pawn-push test and the disambiguator.

## Model

| member | source | states |
|---|---|---|
| Pieces.Opponent | chess.py:573 | the opponent colour differs from the colour |
| MoveGen.SlidingDirections | chess.py:606-661 | the bishop, rook and queen direction lists consist of unit steps |
| MoveGen.PawnCapturesPair | chess.py:586-590 | the capture loop over `[col-1, col+1]` yields the left capture followed by the right one |
| MoveGen.PawnMovesChar | chess.py:574-590 | a pawn's move list contains a move exactly when it is a one-step push onto an empty on-board square, a two-step push from the start row with both squares empty, or a diagonal step onto an opponent piece flagged as a capture |
| MoveGen.StepMoveChar | chess.py:598-605 | one offset yields a move exactly when the target is on the board and empty (non-capture) or holds an opponent piece (capture) |
| MoveGen.StepMovesChar | chess.py:598-605 | an offset list yields exactly the moves some offset of the list yields |
| MoveGen.KnightMovesChar | chess.py:592-605 | a knight's moves are exactly the step targets of its eight L-shaped offsets |
| MoveGen.KingMovesChar | chess.py:662-674 | a king's moves are exactly the step targets of its eight neighbouring offsets |
| MoveGen.RayFromChar | chess.py:610-626 | the ray walk from distance k0, with the squares before it empty, yields exactly the ray targets at distance ≥ k0: empty squares as non-captures, and the first occupied square only if it holds an opponent piece, as a capture |
| MoveGen.RayChar | chess.py:609-626 | a whole ray yields exactly its ray targets: every square before the last is empty, and the walk stops at the edge or the first occupied square |
| MoveGen.RayMovesChar | chess.py:609-626 | a direction list yields exactly the ray targets of its directions |
| MoveGen.SlidingMovesChar | chess.py:606-661 | bishop, rook and queen moves are exactly the ray targets of the kind's four or eight directions |
| MoveGen.MoveTargets | chess.py:570-675 | every generated move starts on the piece's square and ends on the board; it is a capture exactly when the target is occupied, and then the target holds an opponent piece (never a friendly one) |
| MoveGen.DistinctTargetsAppend | chess.py:570-675 | two move lists without repeated destinations, whose destinations are disjoint, concatenate to a list without repeated destinations |
| MoveGen.TablesDistinct | chess.py:592-667 | the knight and king offset tables and the bishop, rook and queen direction tables list each step once |
| MoveGen.PawnMovesDistinct | chess.py:574-590 | a pawn's pushes (own column, one and two rows ahead) and its captures (the two neighbouring columns) all end on different squares |
| MoveGen.StepMovesDistinct | chess.py:598-605 | a list of distinct offsets never yields two moves onto one square |
| MoveGen.RayFromDistinct | chess.py:610-626 | a ray never visits a square twice, and every square it yields lies at or beyond its first square in its direction |
| MoveGen.RayTargetBeyond | chess.py:610-626 | the k-th square along a unit direction lies at or beyond the first step in that direction |
| MoveGen.RayMovesDistinct | chess.py:606-661 | rays in distinct unit directions never reach a common square, so a sliding piece never has two moves onto one square |
| MoveGen.PieceMovesDistinct | chess.py:570-675 | no piece's move list has two moves onto the same square |
| BoardRules.HomePieces | chess.py:262-297 | each side is set up with sixteen pieces |
| BoardRules.HomePlacement | chess.py:260-302 | each set-up piece stands on a board square, and no other square is assigned that piece |
| BoardRules.StartGrid | chess.py:260-302 | the start grid is 8×8 with positions equal to grid indices; rows 0, 1, 6 and 7 are full and the rest empty; white is on rows 6-7 and black on rows 0-1; nobody has moved; the back ranks hold R N B Q K B N R and the pawns' rows hold pawns; the kings are on (7,4) and (0,4) |
| BoardRules.MatchingChar | chess.py:319-321 | the move filter keeps exactly the piece's moves that reach the destination with the requested capture flag |
| BoardRules.SquareCandidatesChar | chess.py:310-321 | one square contributes exactly the eligible pairs whose piece stands on it |
| BoardRules.RowCandidatesChar | chess.py:309-321 | the first n columns of a row contribute exactly the eligible pairs standing there |
| BoardRules.RowsCandidatesChar | chess.py:308-321 | the first n rows contribute exactly the eligible pairs standing there |
| BoardRules.CandidatesChar | chess.py:304-321 | the scan collects exactly the eligible pairs: right kind and colour, source constraints met, and a move to the destination with the requested capture flag |
| BoardRules.NoRepeatsAppend | chess.py:304-321 | two candidate lists without repeats and without common pairs concatenate to a list without repeats |
| BoardRules.MatchingNoRepeats | chess.py:319-321 | filtering a move list without repeated destinations never yields a pair twice |
| BoardRules.SquareCandidatesNoRepeats | chess.py:310-321 | one square contributes no pair twice |
| BoardRules.RowCandidatesNoRepeats | chess.py:309-321 | a row prefix contributes no pair twice, since its squares contribute disjoint pairs |
| BoardRules.RowsCandidatesNoRepeats | chess.py:308-321 | the first n rows contribute no pair twice |
| BoardRules.CandidatesNoRepeats | chess.py:304-321 | the scan never collects the same (piece, move) pair twice |
| BoardRules.MoveResult | chess.py:323-334 | a move leaves a valid grid with positions kept; on success the destination is on the board; on failure the grid is unchanged |
| BoardRules.SingleCandidate | chess.py:324-325 | when the scan finds one pair, it is the only eligible pair |
| BoardRules.ApplyMoveEffect | chess.py:327-331 | relocating an eligible pair puts the piece, moved and storing the destination, on the destination, empties its source, and leaves every other square alone |
| BoardRules.MoveOutcome | chess.py:304-334 | a request succeeds exactly when exactly one (piece, move) pair is eligible, and exactly when the scan finds one candidate, which is then that pair; failure leaves the grid unchanged |
| BoardRules.MoveSucceedsWhenUnique | chess.py:304-334 | when exactly one pair is eligible the request succeeds |
| BoardRules.MoveEffect | chess.py:323-332 | after a success the destination holds the moved piece, the source is empty, nothing else changes, and positions still match squares |
| BoardRules.MoveFailsWithoutCandidate | chess.py:324-334 | with no eligible pair the request fails |
| BoardRules.MoveFailsWhenAmbiguous | chess.py:324-334 | with two different eligible pairs the request fails |
| BoardRules.CastleResult | chess.py:411-420 | castling keeps the grid 8×8 and positions equal to squares |
| BoardRules.CastleEffect | chess.py:373-422 | a successful castle on the decoder's squares never captures; the king and rook land on their destinations marked as moved, both sources are empty, and every other square, on other rows and on the castle row alike, is unchanged |
| BoardRules.Promote | chess.py:424-436 | promotion replaces the piece on the square by the same piece with the new kind (colour, position and moved flag kept), leaves every other square unchanged, and keeps positions |
| BoardRules.PawnMoveNeverPromotes | chess.py:424-436 | no pawn move ends on a square where the moved pawn could be promoted |
| Chessboard.Board.constructor | chess.py:249-257 | a new board holds the start position with both in-check flags false |
| Chessboard.Board.SetupPieces | chess.py:260-302 | placing the pieces writes the start cell of every set-up square and leaves the other squares as they were |
| Chessboard.Board.ScanSquare | chess.py:310-321 | the candidates of one square are the specified ones |
| Chessboard.Board.FindCandidates | chess.py:306-321 | the nested row/column scan collects exactly `Candidates` |
| Chessboard.Board.Relocate | chess.py:327-331 | the grid becomes the relocated grid |
| Chessboard.Board.MoveMatching | chess.py:304-334 | the result and the new grid are `MoveResult` of the old grid |
| Chessboard.Board.MovePiece | chess.py:304-334 | `move_piece` is `MoveResult` for a non-capturing request |
| Chessboard.Board.MovePieceCapture | chess.py:336-371 | `move_piece_capture` is `MoveResult` for a capturing request |
| Chessboard.Board.AttacksFromSquare | chess.py:502-508 | reports whether the piece on a square is an opponent with a move onto the target |
| Chessboard.AnyHits | chess.py:506-508 | reports whether some move of the list ends on the target |
| Chessboard.Board.RowAttacks | chess.py:501-508 | reports whether some square of the row attacks the target |
| Chessboard.Board.IsSquareUnderAttack | chess.py:497-510 | `is_square_under_attack` is exactly `Attacked` |
| Chessboard.Board.PathIsClear | chess.py:381-389 | reports whether every column strictly between king and rook is empty |
| Chessboard.Board.TransitIsSafe | chess.py:401-409 | reports whether neither crossed square is attacked |
| Chessboard.Board.Castle | chess.py:373-422 | succeeds exactly when `CastleOk` holds, and the grid is then `CastleResult`, else unchanged |
| Chessboard.Board.PromotePawn | chess.py:424-436 | succeeds exactly when `CanPromote` holds, and the grid is then `Promote`, else unchanged |
| Chessboard.Board.TryKingMove | chess.py:476-489 | a trial king move reports the check test on the trial grid and restores the exact prior grid |
| Chessboard.Board.FindKing | chess.py:454-461 | finds a king of the colour exactly when there is one, and returns its square |
| Chessboard.Board.KingEscapes | chess.py:471-492 | reports whether some move of this king gets out of check, and leaves the grid as it was |
| Chessboard.Board.IsCheckmate | chess.py:453-494 | `is_checkmate` is exactly `Checkmate`: a king exists, the side is in check, and no king move escapes; the grid is restored |
| Chessboard.GetValidMoves | chess.py:570-675 | `get_valid_moves` returns exactly `PieceMoves` |
| Chessboard.GetPawnMoves | chess.py:574-590 | the pawn branch returns exactly `PawnMoves` |
| Chessboard.GetStepMoves | chess.py:592-605 | the knight/king offset loop returns exactly `StepMoves` |
| Chessboard.GetRayMoves | chess.py:606-661 | the bishop/rook/queen direction loop returns exactly `RayMoves` |
| Chessboard.GetRay | chess.py:610-626 | one `while True` walk returns exactly `RayFrom` |
| Notation.Remove | chess.py:153 | `replace(ch, '')` never lengthens the text and leaves no `ch` |
| Notation.RemoveMember | chess.py:153 | a character survives `replace(ch, '')` exactly when it was there and is not `ch` |
| Notation.IndexOf | chess.py:158-159 | finds the first occurrence, or -1 exactly when the character is absent |
| Notation.Decode | chess.py:118-246 | every decoded request has files 0-7 and rows -1..8 (rank digits 9 and 0 give the off-board rows -1 and 8), a piece move has at most one source constraint, a promotion is Q, R, B or N, and the request is a castle exactly when the text is `O-O` or `O-O-O` |
| Notation.Unmarked | chess.py:150-153 | the stripped text holds no `+` or `#` |
| Notation.DecodeMarked | chess.py:157-168 | after the strip the result is well-shaped and never a castle |
| Notation.DecodeBody | chess.py:170-173 | after the `x` removal the result is well-shaped and never a castle |
| Notation.Classify | chess.py:175-239 | the branch on the remaining characters yields a well-shaped request, never a castle |
| Notation.RemoveAbsent | chess.py:153 | removing an absent character changes nothing |
| Notation.RemoveAppend | chess.py:153 | `replace` distributes over concatenation |
| Notation.UnmarkedAppend | chess.py:153 | the strip distributes over concatenation |
| Notation.UnmarkedPlain | chess.py:153 | the strip leaves text without marks unchanged |
| Notation.CharFacts | chess.py:120 | file letters map to columns 0-7 and rank digit d to row 8-d |
| Notation.PieceCharFacts | chess.py:162-167 | the piece letters decode back to their kinds |
| Notation.RenderDecode | chess.py:118-246 | decoding the rendering of any well-shaped request gives the request back |
| Notation.RenderDecodePush | chess.py:176-189 | the round trip for pawn pushes, with or without a promotion |
| Notation.RenderDecodeCapture | chess.py:192-200 | the round trip for pawn captures |
| Notation.RenderDecodePiece | chess.py:203-236 | the round trip for piece moves, with either disambiguator and either capture flag |
| Notation.ClassifyPiece | chess.py:213-236 | a piece letter, disambiguator and square classify as that piece move |
| Notation.RemoveMark | chess.py:171-173 | the capture flag is the presence of `x`, and removing it restores the text without it |
| Notation.DecodePawnPushExample | chess.py:176-179 | `"e4"` requests a pawn move to (4, 4) |
| Notation.DecodeDisambiguationExample | chess.py:218-226 | `"Nbd7"` requests a knight from column 1 to (1, 3) |
| Notation.DecodeIgnoresCheckMark | chess.py:150-153 | a trailing `+` or `#` does not change the decoding of a non-castle text |
| Notation.MarkedCastleNamesNoPiece | chess.py:125-153 | `O-O+` and similar texts starting with `O` fail as "Invalid piece notation" |
| Notation.UnknownPromotionMalformed | chess.py:162-168 | an unknown promotion letter is a syntax error |
| Notation.PlainDecode | chess.py:150-173 | text without check, mate or promotion marks is classified with its `x` characters removed, flagged as a capture when it had one |
| Notation.PushRankNotDigit | chess.py:176-179 | a two-character pawn push whose second character is not a digit is a syntax error |
| Notation.CaptureRankNotDigit | chess.py:192-195 | a pawn capture whose rank is not a digit is a syntax error |
| Notation.PieceRankNotDigit | chess.py:213-216 | a piece move whose last character is not a digit is a syntax error |
| Notation.DisambiguatorNotRank | chess.py:222-226 | in a four-character piece move, a disambiguator that is neither a letter nor a digit is a syntax error |
| Notation.MarkedSplit | chess.py:158-168 | the `=` split decodes the part before it with the promotion after it, or fails |
| Notation.TwoPromotionsMalformed | chess.py:159 | two `=` signs make the split fail |
| Notation.CountSplit | chess.py:159 | with two `=` signs, one follows the first |
| Games.CastleOutcome | chess.py:123-147 | castling yields a valid grid; a failed castle changes nothing |
| Games.PushOutcome | chess.py:176-189 | a pawn push yields a valid grid; a failure changes nothing unless it is the refused promotion |
| Games.PawnCaptureOutcome | chess.py:191-200 | a pawn capture yields a valid grid; a failed one changes nothing |
| Games.PieceOutcome | chess.py:202-236 | a piece move yields a valid grid; a failed one changes nothing |
| Games.Play | chess.py:118-246 | `play_move` keeps the grid valid; a failure leaves the board as it was, except a pawn push whose promotion is refused |
| Games.Game.constructor | chess.py:15-24 | a new game has the start position, white to move and no error |
| Games.Game.PlayMove | chess.py:118-246 | the result, the new grid and the error message are those of `Play` on the decoded text; the turn does not change |
| Games.Game.Dispatch | chess.py:123-246 | each request kind goes to its board operation, with the matching outcome |
| Games.Game.PlayCastle | chess.py:125-147 | castling on the fixed squares of the mover's castle row |
| Games.Game.PlayPawnPush | chess.py:176-189 | a push, then the promotion when one was asked for |
| Games.Game.PlayPawnCapture | chess.py:192-200 | a pawn capture with the file constraining the source row |
| Games.Game.PlayPieceMove | chess.py:203-236 | a piece move or capture with its disambiguator |
| Games.PromotionNeverSucceeds | chess.py:182-188 | a push with a promotion suffix always fails; if the push was possible, the pawn has moved and the error is "Invalid pawn promotion" |
| Games.PieceMoveEffect | chess.py:228-236 | a successful piece move moves a piece of the mover's colour and the requested kind to the destination, marked as moved, empties its source and changes nothing else |
| Games.WhiteCastlesOnRowZero | chess.py:126 | a successful white castle moves the king from (0, 4), where black's king starts, and leaves rows 1-7 alone |
| Games.CastleBlocked | chess.py:381-389 | a piece between the king and the rook blocks the castle: on column 5 for the kingside castle, on column 1 for the queenside one |
| Games.NoCastleAtStart | chess.py:260-302 | neither side can castle from the start position |

## Left out

- The pygame user interface: `Game.__init__`'s window and fonts, `update`, `draw_input_field`, `print_board` and the `__main__` loop. These are rendering and event handling.
- Turn alternation: `update` flips the turn after a successful move, and that is part of the UI loop.
- PGN loading (`load_pgn_file`, `load_next_move`), which is file I/O.
- The debug `print` calls in `move_piece_capture`.
- `Board.is_check` as written dereferences `king.position` on `None` and raises. `is_checkmate` takes the in-check test as a parameter `inCheck: Grid -> bool`, so its trial loop is modelled against any such test.
- En passant and filtering out moves that leave one's own king in check: the source has neither.
- Object identity of `Piece` objects. The model stores pieces as values in the grid, and updating a piece in place becomes rewriting its cell. The source never keeps one piece object in two cells after a move, so no aliasing is lost. The grid is a `seq` field that the methods reassign, not a list of lists updated in place.
- The unreachable "Invalid move format" branch: every path before it returns.
- Unicode behaviour of `int()`, `str.isalpha()` and `str.lower()` on non-ASCII characters. Digits, letters and lower-casing are modelled for ASCII only.
- Chessboard.GetValidMoves: requires the piece's square to be on the board, which is the only way the source calls it.
- Notation.UnknownPromotionMalformed: excludes a second `=` as the promotion letter; that case is covered by `Notation.TwoPromotionsMalformed`.
- Games.Play: the castle branch takes the mover's in-check flag as a parameter, and `Game` passes false, which is the only value the flags ever hold.
