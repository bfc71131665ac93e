// The board object: 8 rows of 8 optional pieces that the move operations update
// square by square, and the move generator that reads it.

module Chessboard {
  import opened Pieces
  import opened MoveGen
  import opened BoardRules

  class Board {
    /** The 8 rows of 8 squares; a square assignment reassigns the field. */
    var grid: Grid
    var whiteInCheck: bool
    var blackInCheck: bool

    /** The board invariant: 8x8, and every piece stores its own square as its position. */
    predicate Valid()
      reads this
    {
      WellFormed(grid) && Positioned(grid)
    }

    /** A new board holds the start position and neither side is flagged as in check. */
    constructor ()
      ensures Valid() && grid == StartGrid()
      ensures !whiteInCheck && !blackInCheck
    {
      grid := seq(8, r => seq(8, c => None));
      whiteInCheck, blackInCheck := false, false;
      new;
      SetupPieces();
      GridExt(grid, StartGrid());
    }

    /** Places the white pieces and then the black ones on the squares they store; every other
        square keeps its content. */
    method SetupPieces()
      requires WellFormed(grid)
      modifies this
      ensures WellFormed(grid) && whiteInCheck == old(whiteInCheck) && blackInCheck == old(blackInCheck)
      ensures forall r, c :: 0 <= r < 8 && 0 <= c < 8 ==>
        grid[r][c] == if StartCell(r, c).Some? then StartCell(r, c) else old(grid[r][c])
    {
      var whitePieces := HomePieces(White);
      var blackPieces := HomePieces(Black);
      for i := 0 to 16
        invariant WellFormed(grid) && whiteInCheck == old(whiteInCheck) && blackInCheck == old(blackInCheck)
        invariant forall r, c :: 0 <= r < 8 && 0 <= c < 8 ==>
          grid[r][c] == if 0 <= HomeIndex(White, r, c) < i then Some(whitePieces[HomeIndex(White, r, c)]) else old(grid[r][c])
      {
        var piece := whitePieces[i];
        HomePlacement(White, i);
        grid := Set(grid, piece.position.row, piece.position.col, Some(piece));
      }
      for i := 0 to 16
        invariant WellFormed(grid) && whiteInCheck == old(whiteInCheck) && blackInCheck == old(blackInCheck)
        invariant forall r, c :: 0 <= r < 8 && 0 <= c < 8 ==>
          grid[r][c] ==
            if 0 <= HomeIndex(Black, r, c) < i then Some(blackPieces[HomeIndex(Black, r, c)])
            else if 0 <= HomeIndex(White, r, c) then Some(whitePieces[HomeIndex(White, r, c)])
            else old(grid[r][c])
      {
        var piece := blackPieces[i];
        HomePlacement(Black, i);
        grid := Set(grid, piece.position.row, piece.position.col, Some(piece));
      }
    }

    /** The pairs the scan collects on square (row, col): nothing unless the piece there is of
        the requested kind and colour and meets the source constraint, and then its moves that
        reach the request, in order. */
    method ScanSquare(s: Search, row: int, col: int) returns (found: seq<(Piece, Move)>)
      requires Valid() && OnBoard(row, col)
      ensures found == SquareCandidates(grid, s, row, col)
    {
      found := [];
      var piece := grid[row][col];
      if piece.Some? && piece.value.kind == s.kind && piece.value.color == s.turn &&
         (s.from.first.None? || s.from.first.value == row) &&
         (s.from.second.None? || s.from.second.value == col)
      {
        var validMoves := GetValidMoves(piece.value, this);
        for i := 0 to |validMoves|
          invariant found == Matching(piece.value, validMoves[..i], s)
        {
          var move := validMoves[i];
          assert validMoves[..i + 1][..i] == validMoves[..i];
          if move.toRow == s.to.row && move.toCol == s.to.col && move.isCapture == s.capture {
            found := found + [(piece.value, move)];
          }
        }
        assert validMoves[..|validMoves|] == validMoves;
      }
    }

    /** Every (piece, move) pair of the request, scanning the squares row by row. */
    method FindCandidates(s: Search) returns (cands: seq<(Piece, Move)>)
      requires Valid()
      ensures cands == Candidates(grid, s)
    {
      cands := [];
      for row := 0 to 8
        invariant cands == RowsCandidates(grid, s, row)
      {
        var rowCands := [];
        for col := 0 to 8
          invariant rowCands == RowCandidates(grid, s, row, col)
        {
          var found := ScanSquare(s, row, col);
          rowCands := rowCands + found;
        }
        cands := cands + rowCands;
      }
    }

    /** Puts `p` on the destination of `m`, storing that square and marked as moved, and empties
        the source. */
    method Relocate(p: Piece, m: Move)
      requires WellFormed(grid) && OnBoard(m.fromRow, m.fromCol) && OnBoard(m.toRow, m.toCol)
      modifies this
      ensures whiteInCheck == old(whiteInCheck) && blackInCheck == old(blackInCheck)
      ensures grid == ApplyMove(old(grid), p, m)
    {
      grid := Set(grid, m.toRow, m.toCol, Some(p.(position := Square(m.toRow, m.toCol), hasMoved := true)));
      grid := Set(grid, m.fromRow, m.fromCol, None);
    }

    /** Moves the single piece of the request that has a matching move, when there is exactly one
        such (piece, move) pair; otherwise leaves the board alone and reports failure. */
    method MoveMatching(s: Search) returns (ok: bool)
      requires Valid()
      modifies this
      ensures Valid() && whiteInCheck == old(whiteInCheck) && blackInCheck == old(blackInCheck)
      ensures (ok, grid) == MoveResult(old(grid), s)
    {
      ghost var g := grid;
      var cands := FindCandidates(s);
      MoveOutcome(g, s);
      if |cands| == 1 {
        var piece, move := cands[0].0, cands[0].1;
        ApplyMoveEffect(g, s, piece, move);
        Relocate(piece, move);
        return true;
      }
      return false;
    }

    /** `move_piece`: a non-capturing move of the only matching piece. */
    method MovePiece(kind: PieceType, from: FromPos, to: Square, turn: Color) returns (ok: bool)
      requires Valid()
      modifies this
      ensures Valid() && whiteInCheck == old(whiteInCheck) && blackInCheck == old(blackInCheck)
      ensures (ok, grid) == MoveResult(old(grid), Search(kind, from, to, turn, false))
    {
      ok := MoveMatching(Search(kind, from, to, turn, false));
    }

    /** `move_piece_capture`: a capturing move of the only matching piece. */
    method MovePieceCapture(kind: PieceType, from: FromPos, to: Square, turn: Color) returns (ok: bool)
      requires Valid()
      modifies this
      ensures Valid() && whiteInCheck == old(whiteInCheck) && blackInCheck == old(blackInCheck)
      ensures (ok, grid) == MoveResult(old(grid), Search(kind, from, to, turn, true))
    {
      ok := MoveMatching(Search(kind, from, to, turn, true));
    }

    /** Whether the piece on (r, c) belongs to the opponent of `color` and has a move ending on
        (row, col). */
    method AttacksFromSquare(color: Color, r: int, c: int, row: int, col: int) returns (b: bool)
      requires Valid() && OnBoard(r, c)
      ensures b == AttacksFrom(grid, color, r, c, row, col)
    {
      var piece := grid[r][c];
      if piece.Some? && piece.value.color == Opponent(color) {
        var validMoves := GetValidMoves(piece.value, this);
        b := AnyHits(validMoves, row, col);
      } else {
        b := false;
      }
    }

    /** One row of `is_square_under_attack`'s scan: whether a piece of the opponent of `color`
        on row `r` has a move ending on (row, col). */
    method RowAttacks(color: Color, r: int, row: int, col: int) returns (b: bool)
      requires Valid() && 0 <= r < 8
      ensures b <==> exists sc :: 0 <= sc < 8 && AttacksFrom(grid, color, r, sc, row, col)
    {
      for c := 0 to 8
        invariant forall sc :: 0 <= sc < c ==> !AttacksFrom(grid, color, r, sc, row, col)
      {
        var attacks := AttacksFromSquare(color, r, c, row, col);
        if attacks {
          return true;
        }
      }
      return false;
    }

    /** `is_square_under_attack`: whether some piece of the opponent of `color` has a move
        ending on (row, col). */
    method IsSquareUnderAttack(color: Color, row: int, col: int) returns (b: bool)
      requires Valid()
      ensures b == Attacked(grid, color, row, col)
    {
      for r := 0 to 8
        invariant forall sr, sc :: 0 <= sr < r && 0 <= sc < 8 ==> !AttacksFrom(grid, color, sr, sc, row, col)
      {
        var attacks := RowAttacks(color, r, row, col);
        if attacks {
          return true;
        }
      }
      return false;
    }

    /** Whether every square strictly between the king's and the rook's column, on the king's
        row, is empty. */
    method PathIsClear(kingFrom: Square, kingTo: Square, rookFrom: Square) returns (clear: bool)
      requires Valid() && OnBoard(kingFrom.row, kingFrom.col) && OnBoard(rookFrom.row, rookFrom.col)
      ensures clear == PathClear(grid, kingFrom, kingTo, rookFrom)
    {
      var lo, hi := if kingTo.col > kingFrom.col then kingFrom.col + 1 else rookFrom.col + 1,
                    if kingTo.col > kingFrom.col then rookFrom.col else kingFrom.col;
      var col := lo;
      while col < hi
        invariant lo <= col && (col <= hi || col == lo)
        invariant forall c :: lo <= c < col ==> grid[kingFrom.row][c].None?
        decreases hi - col
      {
        if grid[kingFrom.row][col].Some? {
          return false;
        }
        col := col + 1;
      }
      return true;
    }

    /** Whether neither square the king crosses is attacked by the opponent of `color`. */
    method TransitIsSafe(color: Color, kingFrom: Square, kingTo: Square) returns (safe: bool)
      requires Valid()
      ensures safe == forall i :: 0 <= i < 2 ==> !Attacked(grid, color, kingFrom.row, TransitCols(kingFrom, kingTo)[i])
    {
      var transit := if kingTo.col > kingFrom.col then [kingFrom.col + 1, kingFrom.col + 2]
                     else [kingFrom.col - 1, kingFrom.col - 2];
      assert transit == TransitCols(kingFrom, kingTo);
      for i := 0 to 2
        invariant forall j :: 0 <= j < i ==> !Attacked(grid, color, kingFrom.row, transit[j])
      {
        var attacked := IsSquareUnderAttack(color, kingFrom.row, transit[i]);
        if attacked {
          return false;
        }
      }
      return true;
    }

    /** `castle`: moves the king and the rook when CastleOk holds, with the in-check flag of
        `turn` as the flag; otherwise leaves the board alone. */
    method Castle(kingFrom: Square, kingTo: Square, rookFrom: Square, rookTo: Square, turn: Color) returns (ok: bool)
      requires Valid()
      requires OnBoard(kingFrom.row, kingFrom.col) && OnBoard(kingTo.row, kingTo.col)
      requires OnBoard(rookFrom.row, rookFrom.col) && OnBoard(rookTo.row, rookTo.col)
      modifies this
      ensures Valid() && whiteInCheck == old(whiteInCheck) && blackInCheck == old(blackInCheck)
      ensures ok == CastleOk(old(grid), if turn == White then whiteInCheck else blackInCheck, kingFrom, kingTo, rookFrom)
      ensures grid == if ok then CastleResult(old(grid), kingFrom, kingTo, rookFrom, rookTo) else old(grid)
    {
      var king := grid[kingFrom.row][kingFrom.col];
      var rook := grid[rookFrom.row][rookFrom.col];
      if king.None? || king.value.kind != King || rook.None? || rook.value.kind != Rook {
        return false;
      }
      var clear := PathIsClear(kingFrom, kingTo, rookFrom);
      if !clear {
        return false;
      }
      if turn == White && whiteInCheck {
        return false;
      } else if turn == Black && blackInCheck {
        return false;
      }
      if king.value.hasMoved || rook.value.hasMoved {
        return false;
      }
      var safe := TransitIsSafe(king.value.color, kingFrom, kingTo);
      if !safe {
        return false;
      }
      grid := Set(grid, kingTo.row, kingTo.col, Some(king.value.(position := kingTo, hasMoved := true)));
      grid := Set(grid, kingFrom.row, kingFrom.col, None);
      grid := Set(grid, rookTo.row, rookTo.col, Some(rook.value.(position := rookTo, hasMoved := true)));
      grid := Set(grid, rookFrom.row, rookFrom.col, None);
      return true;
    }

    /** `promote_pawn`: changes the kind of the pawn on `pos` when CanPromote holds; otherwise
        leaves the board alone. */
    method PromotePawn(kind: PieceType, pos: Square) returns (ok: bool)
      requires Valid() && OnBoard(pos.row, pos.col)
      modifies this
      ensures Valid() && whiteInCheck == old(whiteInCheck) && blackInCheck == old(blackInCheck)
      ensures ok == CanPromote(old(grid), pos)
      ensures grid == if ok then Promote(old(grid), kind, pos) else old(grid)
    {
      var piece := grid[pos.row][pos.col];
      if piece.None? || piece.value.kind != Pawn {
        return false;
      }
      if (piece.value.color == White && pos.row != 7) || (piece.value.color == Black && pos.row != 0) {
        return false;
      }
      grid := Set(grid, pos.row, pos.col, Some(piece.value.(kind := kind)));
      return true;
    }

    /** One trial move of `is_checkmate`: puts `p` (storing the trial square) on the destination,
        empties the source, asks `inCheck`, and puts both squares back. */
    method TryKingMove(p: Piece, m: Move, inCheck: Grid -> bool) returns (still: bool)
      requires WellFormed(grid) && OnBoard(m.fromRow, m.fromCol) && OnBoard(m.toRow, m.toCol)
      requires grid[m.fromRow][m.fromCol] == Some(p)
      modifies this
      ensures grid == old(grid) && whiteInCheck == old(whiteInCheck) && blackInCheck == old(blackInCheck)
      ensures still == inCheck(TrialGrid(old(grid), p, m))
    {
      ghost var g := grid;
      var originalPiece := grid[m.toRow][m.toCol];
      grid := Set(grid, m.toRow, m.toCol, Some(p.(position := Square(m.toRow, m.toCol))));
      grid := Set(grid, m.fromRow, m.fromCol, None);
      still := inCheck(grid);
      grid := Set(grid, m.fromRow, m.fromCol, Some(p));
      grid := Set(grid, m.toRow, m.toCol, originalPiece);
      GridExt(grid, g);
    }

    /** The first loop of `is_checkmate`: looks for a king of `color`, row by row (the `break`
        leaves only the column loop). */
    method FindKing(color: Color) returns (kingPos: Option<Square>)
      requires Valid()
      ensures kingPos.Some? <==> HasKing(grid, color)
      ensures kingPos.Some? ==> OnBoard(kingPos.value.row, kingPos.value.col) && KingOf(grid, color, kingPos.value.row, kingPos.value.col)
    {
      kingPos := None;
      for row := 0 to 8
        invariant kingPos.Some? ==> OnBoard(kingPos.value.row, kingPos.value.col) && KingOf(grid, color, kingPos.value.row, kingPos.value.col)
        invariant kingPos.None? ==> forall r, c :: 0 <= r < row && 0 <= c < 8 ==> !KingOf(grid, color, r, c)
      {
        for col := 0 to 8
          invariant kingPos.Some? ==> OnBoard(kingPos.value.row, kingPos.value.col) && KingOf(grid, color, kingPos.value.row, kingPos.value.col)
          invariant kingPos.None? ==> forall r, c :: 0 <= r < 8 && 0 <= c < 8 && (r < row || (r == row && c < col)) ==>
            !KingOf(grid, color, r, c)
        {
          var piece := grid[row][col];
          if piece.Some? && piece.value.kind == King && piece.value.color == color {
            kingPos := Some(Square(row, col));
            break;
          }
        }
      }
    }

    /** The trial moves of the king of `color` on (row, col): whether one of them leaves the
        side out of check. The board is the same afterwards. */
    method KingEscapes(color: Color, row: int, col: int, inCheck: Grid -> bool) returns (escapes: bool)
      requires Valid() && OnBoard(row, col) && KingOf(grid, color, row, col)
      modifies this
      ensures Valid() && grid == old(grid) && whiteInCheck == old(whiteInCheck) && blackInCheck == old(blackInCheck)
      ensures escapes <==> exists i :: Escapes(grid, color, inCheck, row, col, i)
    {
      ghost var g := grid;
      var piece := grid[row][col].value;
      var validMoves := GetValidMoves(piece, this);
      for i := 0 to |validMoves|
        invariant grid == g && whiteInCheck == old(whiteInCheck) && blackInCheck == old(blackInCheck)
        invariant forall j :: 0 <= j < i ==> !Escapes(g, color, inCheck, row, col, j)
      {
        var move := validMoves[i];
        MoveTargets(g, piece, move);
        var still := TryKingMove(piece, move, inCheck);
        if !still {
          assert Escapes(g, color, inCheck, row, col, i);
          return true;
        }
      }
      return false;
    }

    /** `is_checkmate`, with the check test it relies on passed as `inCheck`: the side has a
        king, is in check, and no trial move of any of its kings gets it out of check. The board
        is the same afterwards. */
    method IsCheckmate(color: Color, inCheck: Grid -> bool) returns (mate: bool)
      requires Valid()
      modifies this
      ensures grid == old(grid) && whiteInCheck == old(whiteInCheck) && blackInCheck == old(blackInCheck)
      ensures mate == Checkmate(old(grid), color, inCheck)
    {
      ghost var g := grid;
      var kingPos := FindKing(color);
      if kingPos.None? {
        return false;
      }
      var check := inCheck(grid);
      if !check {
        return false;
      }
      for row := 0 to 8
        invariant grid == g && whiteInCheck == old(whiteInCheck) && blackInCheck == old(blackInCheck)
        invariant forall r, c, i :: 0 <= r < row && 0 <= c < 8 ==> !Escapes(g, color, inCheck, r, c, i)
      {
        for col := 0 to 8
          invariant grid == g && whiteInCheck == old(whiteInCheck) && blackInCheck == old(blackInCheck)
          invariant forall r, c, i :: 0 <= r < 8 && 0 <= c < 8 && (r < row || (r == row && c < col)) ==>
            !Escapes(g, color, inCheck, r, c, i)
        {
          var piece := grid[row][col];
          if piece.Some? && piece.value.color == color && piece.value.kind == King {
            var escapes := KingEscapes(color, row, col, inCheck);
            if escapes {
              return false;
            }
          } else {
            assert !KingOf(g, color, row, col);
          }
        }
      }
      return true;
    }
  }

  /** The scan over one piece's moves in `is_square_under_attack`: whether one of them ends on
      (row, col). */
  method AnyHits(moves: seq<Move>, row: int, col: int) returns (b: bool)
    ensures b == Hits(moves, row, col)
  {
    for i := 0 to |moves|
      invariant forall j :: 0 <= j < i ==> !(moves[j].toRow == row && moves[j].toCol == col)
    {
      if moves[i].toRow == row && moves[i].toCol == col {
        return true;
      }
    }
    return false;
  }

  // ================================================================ move generation

  /** `get_valid_moves`: the moves of `p` on the board, in the engine's order. */
  method GetValidMoves(p: Piece, board: Board) returns (moves: seq<Move>)
    requires WellFormed(board.grid) && OnBoard(p.position.row, p.position.col)
    ensures moves == PieceMoves(board.grid, p)
  {
    if p.kind == Pawn {
      moves := GetPawnMoves(p, board);
    } else if p.kind == Knight {
      moves := GetStepMoves(p, board, KnightOffsets);
    } else if p.kind == Bishop {
      moves := GetRayMoves(p, board, BishopDirections);
    } else if p.kind == Rook {
      moves := GetRayMoves(p, board, RookDirections);
    } else if p.kind == Queen {
      moves := GetRayMoves(p, board, QueenDirections);
    } else {
      moves := GetStepMoves(p, board, KingOffsets);
    }
  }

  /** The pawn branch: the one- and two-square advances, then the diagonal captures. */
  method GetPawnMoves(p: Piece, board: Board) returns (moves: seq<Move>)
    requires WellFormed(board.grid) && OnBoard(p.position.row, p.position.col)
    ensures moves == PawnMoves(board.grid, p)
  {
    ghost var g := board.grid;
    var row, col := p.position.row, p.position.col;
    var opponentColor := Opponent(p.color);
    var direction := if p.color == White then -1 else 1;
    var startRow := if p.color == White then 6 else 1;
    moves := [];
    if 0 <= row + direction < 8 && board.grid[row + direction][col].None? {
      moves := moves + [Move(col, row, col, row + direction, false)];
      if row == startRow && board.grid[row + 2 * direction][col].None? {
        moves := moves + [Move(col, row, col, row + 2 * direction, false)];
      }
    }
    var captureCols := [col - 1, col + 1];
    for i := 0 to 2
      invariant moves == PawnPushes(g, p) + PawnCaptures(g, p, captureCols[..i])
    {
      var captureCol := captureCols[i];
      assert captureCols[..i + 1][..i] == captureCols[..i];
      if 0 <= captureCol < 8 && 0 <= row + direction < 8 {
        var target := board.grid[row + direction][captureCol];
        if target.Some? && target.value.color == opponentColor {
          moves := moves + [Move(col, row, captureCol, row + direction, true)];
        }
      }
    }
    assert captureCols[..2] == captureCols;
  }

  /** The knight and king branches: one move per offset that stays on the board and does not
      land on a friendly piece. */
  method GetStepMoves(p: Piece, board: Board, offsets: seq<(int, int)>) returns (moves: seq<Move>)
    requires WellFormed(board.grid)
    ensures moves == StepMoves(board.grid, p, offsets)
  {
    ghost var g := board.grid;
    var row, col := p.position.row, p.position.col;
    moves := [];
    for i := 0 to |offsets|
      invariant moves == StepMoves(g, p, offsets[..i])
    {
      var newRow, newCol := row + offsets[i].0, col + offsets[i].1;
      assert offsets[..i + 1][..i] == offsets[..i];
      if 0 <= newRow < 8 && 0 <= newCol < 8 {
        if board.grid[newRow][newCol].None? {
          moves := moves + [Move(col, row, newCol, newRow, false)];
        } else if board.grid[newRow][newCol].value.color != p.color {
          moves := moves + [Move(col, row, newCol, newRow, true)];
        }
      }
    }
    assert offsets[..|offsets|] == offsets;
  }

  /** The bishop, rook and queen branches: the rays of `directions`, one after the other. */
  method GetRayMoves(p: Piece, board: Board, directions: seq<(int, int)>) returns (moves: seq<Move>)
    requires WellFormed(board.grid) && OnBoard(p.position.row, p.position.col) && Units(directions)
    ensures moves == RayMoves(board.grid, p, directions)
  {
    ghost var g := board.grid;
    moves := [];
    for i := 0 to |directions|
      invariant moves == RayMoves(g, p, directions[..i])
    {
      var ray := GetRay(p, board, directions[i].0, directions[i].1);
      assert directions[..i + 1][..i] == directions[..i];
      moves := moves + ray;
    }
    assert directions[..|directions|] == directions;
  }

  /** One direction, followed square by square until the board edge or the first occupied
      square, which is taken when it holds an opponent piece. */
  method GetRay(p: Piece, board: Board, dirRow: int, dirCol: int) returns (ray: seq<Move>)
    requires WellFormed(board.grid) && OnBoard(p.position.row, p.position.col) && Unit((dirRow, dirCol))
    ensures ray == RayFrom(board.grid, p, p.position.row + dirRow, p.position.col + dirCol, dirRow, dirCol)
  {
    ghost var g := board.grid;
    var row, col := p.position.row, p.position.col;
    ray := [];
    var newRow, newCol := row, col;
    while true
      invariant OnBoard(newRow, newCol)
      invariant ray + RayFrom(g, p, newRow + dirRow, newCol + dirCol, dirRow, dirCol)
             == RayFrom(g, p, row + dirRow, col + dirCol, dirRow, dirCol)
      decreases Room(newRow, dirRow) + Room(newCol, dirCol)
    {
      newRow := newRow + dirRow;
      newCol := newCol + dirCol;
      if newRow < 0 || newRow >= 8 || newCol < 0 || newCol >= 8 {
        break;
      }
      var target := board.grid[newRow][newCol];
      assert target == g[newRow][newCol];
      if target.None? {
        ray := ray + [Move(col, row, newCol, newRow, false)];
      } else {
        if target.value.color != p.color {
          ray := ray + [Move(col, row, newCol, newRow, true)];
        }
        break;
      }
    }
  }
}
