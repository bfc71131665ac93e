// The game: the board, whose turn it is and the last error message, and the
// dispatch of a typed move to the board operations.

module Games {
  import opened Pieces
  import opened MoveGen
  import opened BoardRules
  import opened Notation
  import opened Chessboard

  /** What playing a move yields: success, the new grid, and the error message on failure. */
  datatype Outcome = Outcome(ok: bool, grid: Grid, error: string)

  /** The row castling acts on: row 0 for white and row 7 for black. */
  function CastleRank(turn: Color): int
  {
    if turn == White then 0 else 7
  }

  /** The king's destination, the rook's source and the rook's destination of a castle on row `rank`. */
  function CastleTargets(rank: int, kingside: bool): (Square, Square, Square)
  {
    if kingside then (Square(rank, 6), Square(rank, 7), Square(rank, 5))
    else (Square(rank, 2), Square(rank, 0), Square(rank, 3))
  }

  /** The lower-case name of a kind, as error messages print it. */
  function KindName(kind: PieceType): string
  {
    match kind
    case Pawn => "pawn"
    case Knight => "knight"
    case Bishop => "bishop"
    case Rook => "rook"
    case Queen => "queen"
    case King => "king"
  }

  /** The message of a failed piece move: "Invalid knight capture", "Invalid rook move", ... */
  function MoveError(kind: PieceType, capture: bool): string
  {
    "Invalid " + KindName(kind) + (if capture then " capture" else " move")
  }

  /** "O-O" or "O-O-O" for `turn`, whose in-check flag is `flagged`: the king on column 4 of
      CastleRank(turn) and the rook on column 7 or 0 of that row. */
  function CastleOutcome(g: Grid, flagged: bool, turn: Color, kingside: bool): (o: Outcome)
    requires WellFormed(g) && Positioned(g)
    ensures WellFormed(o.grid) && Positioned(o.grid)
    ensures !o.ok ==> o.grid == g
  {
    var rank := CastleRank(turn);
    var (kingTo, rookFrom, rookTo) := CastleTargets(rank, kingside);
    if CastleOk(g, flagged, Square(rank, 4), kingTo, rookFrom)
    then Outcome(true, CastleResult(g, Square(rank, 4), kingTo, rookFrom, rookTo), "")
    else Outcome(false, g, "Invalid castling move")
  }

  /** A pawn push: a pawn move constrained to the destination's column, followed by the
      promotion when one was asked for. */
  function PushOutcome(g: Grid, turn: Color, to: Square, promotion: Option<PieceType>): (o: Outcome)
    requires WellFormed(g) && Positioned(g)
    ensures WellFormed(o.grid) && Positioned(o.grid)
    ensures !o.ok ==> o.grid == g || (promotion.Some? && o.error == "Invalid pawn promotion")
  {
    var moved := MoveResult(g, Search(Pawn, FromPos(None, Some(to.col)), to, turn, false));
    if !moved.0 then Outcome(false, g, "Invalid pawn move")
    else if promotion.None? then Outcome(true, moved.1, "")
    else if CanPromote(moved.1, to) then Outcome(true, Promote(moved.1, promotion.value, to), "")
    else Outcome(false, moved.1, "Invalid pawn promotion")
  }

  /** A pawn capture: the capturing file's index constrains the source ROW. */
  function PawnCaptureOutcome(g: Grid, turn: Color, srcFile: int, to: Square): (o: Outcome)
    requires WellFormed(g) && Positioned(g)
    ensures WellFormed(o.grid) && Positioned(o.grid)
    ensures !o.ok ==> o.grid == g
  {
    var moved := MoveResult(g, Search(Pawn, FromPos(Some(srcFile), None), to, turn, true));
    if moved.0 then Outcome(true, moved.1, "") else Outcome(false, g, "Invalid pawn capture")
  }

  /** A piece move: the disambiguator passes as (row, column). */
  function PieceOutcome(g: Grid, turn: Color, kind: PieceType, from: FromPos, to: Square, capture: bool): (o: Outcome)
    requires WellFormed(g) && Positioned(g)
    ensures WellFormed(o.grid) && Positioned(o.grid)
    ensures !o.ok ==> o.grid == g
  {
    var moved := MoveResult(g, Search(kind, from, to, turn, capture));
    if moved.0 then Outcome(true, moved.1, "") else Outcome(false, g, MoveError(kind, capture))
  }

  /** What `play_move` does with a decoded request for the side `turn`, whose in-check flag is
      `flagged`. A failed move leaves the board as it was, with one exception: a pawn push whose
      promotion is refused has already moved the pawn. */
  function Play(g: Grid, flagged: bool, turn: Color, req: Request): (o: Outcome)
    requires WellFormed(g) && Positioned(g)
    ensures WellFormed(o.grid) && Positioned(o.grid)
    ensures !o.ok ==> o.grid == g || (req.PawnPush? && req.promotion.Some? && o.error == "Invalid pawn promotion")
  {
    match req
    case CastleRequest(kingside) => CastleOutcome(g, flagged, turn, kingside)
    case PawnPush(to, promotion) => PushOutcome(g, turn, to, promotion)
    case PawnCapture(srcFile, to) => PawnCaptureOutcome(g, turn, srcFile, to)
    case PieceMove(kind, from, to, capture) => PieceOutcome(g, turn, kind, from, to, capture)
    case UnknownPiece => Outcome(false, g, "Invalid piece notation")
    case Malformed => Outcome(false, g, "Invalid move syntax")
  }

  class Game {
    var board: Board
    var currentTurn: Color
    var errorMessage: Option<string>

    /** The board is valid, and its in-check flags are still the false they start as: nothing
        ever sets them. */
    predicate Valid()
      reads this, board
    {
      board.Valid() && !board.whiteInCheck && !board.blackInCheck
    }

    /** A new game: the start position, white to move, no error. */
    constructor ()
      ensures Valid() && fresh(board)
      ensures board.grid == StartGrid() && currentTurn == White && errorMessage == None
    {
      board := new Board();
      currentTurn := White;
      errorMessage := None;
    }

    /** `play_move`: decodes the text and hands the request to the board. On failure the error
        message names what failed; on success it is left as it was. The turn does not change. */
    method PlayMove(text: string) returns (success: bool)
      requires Valid()
      modifies this, board
      ensures Valid() && board == old(board) && currentTurn == old(currentTurn)
      ensures var o := Play(old(board.grid), false, currentTurn, Decode(text));
        success == o.ok && board.grid == o.grid &&
        errorMessage == if success then old(errorMessage) else Some(o.error)
    {
      var req := Decode(text);
      var error;
      success, error := Dispatch(req);
      if !success {
        errorMessage := Some(error);
      }
    }

    /** Hands a decoded request to the board operation it names; `error` is the message a
        failure reports. */
    method Dispatch(req: Request) returns (success: bool, error: string)
      requires Valid()
      modifies board
      ensures Valid()
      ensures var o := Play(old(board.grid), false, currentTurn, req);
        success == o.ok && board.grid == o.grid && error == o.error
    {
      match req {
        case CastleRequest(kingside) =>
          success, error := PlayCastle(kingside);
        case PawnPush(to, promotion) =>
          success, error := PlayPawnPush(to, promotion);
        case PawnCapture(srcFile, to) =>
          success, error := PlayPawnCapture(srcFile, to);
        case PieceMove(kind, from, to, capture) =>
          success, error := PlayPieceMove(kind, from, to, capture);
        case UnknownPiece =>
          success, error := false, "Invalid piece notation";
        case Malformed =>
          success, error := false, "Invalid move syntax";
      }
    }

    /** "O-O" and "O-O-O": the fixed squares on row CastleRank(currentTurn). */
    method PlayCastle(kingside: bool) returns (success: bool, error: string)
      requires Valid()
      modifies board
      ensures Valid()
      ensures var o := CastleOutcome(old(board.grid), false, currentTurn, kingside);
        success == o.ok && board.grid == o.grid && error == o.error
    {
      var rank := CastleRank(currentTurn);
      var (kingTo, rookFrom, rookTo) := CastleTargets(rank, kingside);
      success := board.Castle(Square(rank, 4), kingTo, rookFrom, rookTo, currentTurn);
      error := if success then "" else "Invalid castling move";
    }

    /** A pawn push, and then the promotion when one was asked for. */
    method PlayPawnPush(to: Square, promotion: Option<PieceType>) returns (success: bool, error: string)
      requires Valid()
      modifies board
      ensures Valid()
      ensures var o := PushOutcome(old(board.grid), currentTurn, to, promotion);
        success == o.ok && board.grid == o.grid && error == o.error
    {
      success := board.MovePiece(Pawn, FromPos(None, Some(to.col)), to, currentTurn);
      error := if success then "" else "Invalid pawn move";
      if success && promotion.Some? {
        success := board.PromotePawn(promotion.value, to);
        error := if success then "" else "Invalid pawn promotion";
      }
    }

    /** A pawn capture such as "exd5". */
    method PlayPawnCapture(srcFile: int, to: Square) returns (success: bool, error: string)
      requires Valid()
      modifies board
      ensures Valid()
      ensures var o := PawnCaptureOutcome(old(board.grid), currentTurn, srcFile, to);
        success == o.ok && board.grid == o.grid && error == o.error
    {
      success := board.MovePieceCapture(Pawn, FromPos(Some(srcFile), None), to, currentTurn);
      error := if success then "" else "Invalid pawn capture";
    }

    /** A move of a piece other than a pawn, with its disambiguator. */
    method PlayPieceMove(kind: PieceType, from: FromPos, to: Square, capture: bool) returns (success: bool, error: string)
      requires Valid()
      modifies board
      ensures Valid()
      ensures var o := PieceOutcome(old(board.grid), currentTurn, kind, from, to, capture);
        success == o.ok && board.grid == o.grid && error == o.error
    {
      if capture {
        success := board.MovePieceCapture(kind, from, to, currentTurn);
      } else {
        success := board.MovePiece(kind, from, to, currentTurn);
      }
      error := if success then "" else MoveError(kind, capture);
    }
  }

  // ================================================================ properties

  /** A pawn push with a promotion suffix never succeeds: a white pawn advances towards row 0
      but may only promote on row 7, and a black pawn the other way round. When the push itself
      is possible, the pawn has moved and the failure is "Invalid pawn promotion". */
  lemma PromotionNeverSucceeds(g: Grid, turn: Color, to: Square, kind: PieceType)
    requires WellFormed(g) && Positioned(g)
    ensures var moved := MoveResult(g, Search(Pawn, FromPos(None, Some(to.col)), to, turn, false));
      var o := PushOutcome(g, turn, to, Some(kind));
      !o.ok && (moved.0 ==> o.grid == moved.1 && o.error == "Invalid pawn promotion")
  {
    var s := Search(Pawn, FromPos(None, Some(to.col)), to, turn, false);
    if MoveResult(g, s).0 {
      MoveEffect(g, s);
      PawnMoveNeverPromotes(g, Candidates(g, s)[0].0, Candidates(g, s)[0].1);
    }
  }

  /** A successful piece move takes a piece `p` of the mover's colour and of the requested kind
      to the requested square, marked as moved; it empties the piece's old square and changes
      nothing else. */
  lemma PieceMoveEffect(g: Grid, turn: Color, kind: PieceType, from: FromPos, to: Square, capture: bool)
      returns (p: Piece)
    requires WellFormed(g) && Positioned(g)
    requires PieceOutcome(g, turn, kind, from, to, capture).ok
    ensures var g' := PieceOutcome(g, turn, kind, from, to, capture).grid;
      OnBoard(to.row, to.col) && OnBoard(p.position.row, p.position.col) &&
      p.color == turn && p.kind == kind && g[p.position.row][p.position.col] == Some(p) &&
      g'[to.row][to.col] == Some(p.(position := to, hasMoved := true)) &&
      g'[p.position.row][p.position.col].None? &&
      forall r, c :: OnBoard(r, c) && Square(r, c) != to && Square(r, c) != p.position ==> g'[r][c] == g[r][c]
  {
    var s := Search(kind, from, to, turn, capture);
    MoveEffect(g, s);
    p := Candidates(g, s)[0].0;
  }

  /** Castling acts on row 0 for white, where the black pieces start: a successful white castle
      moves the king found on (0, 4) and leaves rows 1 to 7 alone. */
  lemma WhiteCastlesOnRowZero(g: Grid, kingside: bool)
    requires WellFormed(g) && Positioned(g)
    requires CastleOutcome(g, false, White, kingside).ok
    ensures var g' := CastleOutcome(g, false, White, kingside).grid;
      g[0][4].Some? && g[0][4].value.kind == King && g'[0][4].None? &&
      forall r, c :: OnBoard(r, c) && r != 0 ==> g'[r][c] == g[r][c]
  {
    var (kingTo, rookFrom, rookTo) := CastleTargets(0, kingside);
    CastleEffect(g, 0, kingside, Square(0, 4), kingTo, rookFrom, rookTo);
  }

  /** A piece between the king and the rook (on column 5 for the kingside castle, on column 1
      for the queenside one) blocks the castle. */
  lemma CastleBlocked(g: Grid, flagged: bool, turn: Color, kingside: bool)
    requires WellFormed(g) && Positioned(g)
    requires g[CastleRank(turn)][if kingside then 5 else 1].Some?
    ensures !CastleOutcome(g, flagged, turn, kingside).ok
  {
  }

  /** From the start position neither side can castle: on both rows the pieces between the king
      and the rooks are still there. */
  lemma NoCastleAtStart(turn: Color, kingside: bool)
    ensures !CastleOutcome(StartGrid(), false, turn, kingside).ok
  {
    var g: Grid := StartGrid();
    assert g[CastleRank(turn)][if kingside then 5 else 1].Some?;
    CastleBlocked(g, false, turn, kingside);
  }
}
