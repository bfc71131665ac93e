// What the board's operations compute, stated on grid values: the start
// position, the candidate scan of a move request, the relocation of a piece,
// attacked squares, castling, promotion and the checkmate trial moves.

module BoardRules {
  import opened Pieces
  import opened MoveGen

  // ================================================================ start position

  const BackRank: seq<PieceType> := [Rook, Knight, Bishop, Queen, King, Bishop, Knight, Rook]

  /** The row of a side's back-rank pieces. */
  function HomeRow(c: Color): int
  {
    if c == White then 7 else 0
  }

  /** The sixteen pieces a side is set up with, in the engine's order: the back rank from
      column 0 to 7, then the pawns from column 0 to 7 on the pawns' start row. */
  function HomePieces(c: Color): (ps: seq<Piece>)
    ensures |ps| == 16
  {
    seq(16, i requires 0 <= i < 16 =>
      if i < 8 then Piece(c, Square(HomeRow(c), i), BackRank[i], false)
      else Piece(c, Square(StartRow(c), i - 8), Pawn, false))
  }

  /** The index in HomePieces(c) of the piece set up on (r, col), or -1 when there is none. */
  function HomeIndex(c: Color, r: int, col: int): int
  {
    if r == HomeRow(c) then col else if r == StartRow(c) then col + 8 else -1
  }

  /** The i-th piece of a side's set-up list stands on the board at the one square whose home index is i. */
  lemma HomePlacement(c: Color, i: int)
    requires 0 <= i < 16
    ensures var pos := HomePieces(c)[i].position;
      OnBoard(pos.row, pos.col) && HomeIndex(c, pos.row, pos.col) == i &&
      forall r, col :: OnBoard(r, col) && HomeIndex(c, r, col) == i ==> Square(r, col) == pos
  {
    assert HomeRow(c) != StartRow(c);
    if i < 8 {
      assert HomePieces(c)[i].position == Square(HomeRow(c), i);
    } else {
      assert HomePieces(c)[i].position == Square(StartRow(c), i - 8);
    }
  }

  /** The content of square (r, c) once every piece has been placed (black after white). */
  function StartCell(r: int, c: int): Option<Piece>
    requires OnBoard(r, c)
  {
    if HomeIndex(Black, r, c) >= 0 then Some(HomePieces(Black)[HomeIndex(Black, r, c)])
    else if HomeIndex(White, r, c) >= 0 then Some(HomePieces(White)[HomeIndex(White, r, c)])
    else None
  }

  /** The standard start position: white on rows 6 and 7, black on rows 0 and 1, nobody moved,
      every piece storing its own square. */
  function StartGrid(): (g: Grid)
    ensures WellFormed(g) && Positioned(g)
    ensures forall r, c :: OnBoard(r, c) ==> (g[r][c].Some? <==> r == 0 || r == 1 || r == 6 || r == 7)
    ensures forall r, c :: OnBoard(r, c) && g[r][c].Some? ==>
      !g[r][c].value.hasMoved && g[r][c].value.color == (if r >= 6 then White else Black)
    ensures forall c :: 0 <= c < 8 ==>
      g[7][c].Some? && g[7][c].value.kind == BackRank[c] && g[0][c].Some? && g[0][c].value.kind == BackRank[c] &&
      g[6][c].Some? && g[6][c].value.kind == Pawn && g[1][c].Some? && g[1][c].value.kind == Pawn
    ensures g[7][4] == Some(Piece(White, Square(7, 4), King, false))
    ensures g[0][4] == Some(Piece(Black, Square(0, 4), King, false))
  {
    seq(8, r requires 0 <= r < 8 => seq(8, c requires 0 <= c < 8 => StartCell(r, c)))
  }

  // ================================================================ the candidate scan

  /** A move request as the board receives it: the kind and colour of the piece, its source
      constraint, its destination and whether the move must be a capture. */
  datatype Search = Search(kind: PieceType, from: FromPos, to: Square, turn: Color, capture: bool)

  /** The piece `p` standing on (r, c) is of the requested kind and colour and meets the constraint. */
  predicate Selects(s: Search, r: int, c: int, p: Piece)
  {
    p.kind == s.kind && p.color == s.turn &&
    (s.from.first.None? || s.from.first.value == r) &&
    (s.from.second.None? || s.from.second.value == c)
  }

  /** `m` goes to the requested destination with the requested capture flag. */
  predicate Reaches(s: Search, m: Move)
  {
    m.toRow == s.to.row && m.toCol == s.to.col && m.isCapture == s.capture
  }

  /** The pairs (p, m) for the moves `m` of `moves` that reach the request, in order. */
  function Matching(p: Piece, moves: seq<Move>, s: Search): seq<(Piece, Move)>
    decreases |moves|
  {
    if moves == [] then []
    else
      var m := moves[|moves| - 1];
      Matching(p, moves[..|moves| - 1], s) + (if Reaches(s, m) then [(p, m)] else [])
  }

  function SquareCandidates(g: Grid, s: Search, r: int, c: int): seq<(Piece, Move)>
    requires WellFormed(g) && Positioned(g) && OnBoard(r, c)
  {
    match g[r][c]
    case None => []
    case Some(p) => if Selects(s, r, c, p) then Matching(p, PieceMoves(g, p), s) else []
  }

  /** The candidates found on the first `n` squares of row `r`. */
  function RowCandidates(g: Grid, s: Search, r: int, n: int): seq<(Piece, Move)>
    requires WellFormed(g) && Positioned(g) && 0 <= r < 8 && 0 <= n <= 8
    decreases n
  {
    if n == 0 then []
    else RowCandidates(g, s, r, n - 1) + SquareCandidates(g, s, r, n - 1)
  }

  /** The candidates found on the first `n` rows, each scanned from column 0 to 7. */
  function RowsCandidates(g: Grid, s: Search, n: int): seq<(Piece, Move)>
    requires WellFormed(g) && Positioned(g) && 0 <= n <= 8
    decreases n
  {
    if n == 0 then []
    else RowsCandidates(g, s, n - 1) + RowCandidates(g, s, n - 1, |g[n - 1]|)
  }

  /** Every (piece, move) pair the board scan collects for a request, in scan order. */
  function Candidates(g: Grid, s: Search): seq<(Piece, Move)>
    requires WellFormed(g) && Positioned(g)
  {
    RowsCandidates(g, s, |g|)
  }

  /** The reference definition of a candidate: `p` stands on the grid, is of the requested kind
      and colour, meets the source constraint, and `m` is one of its moves to the destination
      with the requested capture flag. */
  predicate Eligible(g: Grid, s: Search, p: Piece, m: Move)
    requires WellFormed(g)
  {
    OnBoard(p.position.row, p.position.col) && g[p.position.row][p.position.col] == Some(p) &&
    Selects(s, p.position.row, p.position.col, p) && m in PieceMoves(g, p) && Reaches(s, m)
  }

  lemma {:induction false} MatchingChar(p: Piece, moves: seq<Move>, s: Search, q: Piece, m: Move)
    ensures (q, m) in Matching(p, moves, s) <==> q == p && m in moves && Reaches(s, m)
    decreases |moves|
  {
    if moves != [] {
      var n := |moves| - 1;
      MatchingChar(p, moves[..n], s, q, m);
      assert moves == moves[..n] + [moves[n]];
    }
  }

  lemma SquareCandidatesChar(g: Grid, s: Search, r: int, c: int, q: Piece, m: Move)
    requires WellFormed(g) && Positioned(g) && OnBoard(r, c)
    ensures (q, m) in SquareCandidates(g, s, r, c) <==> Eligible(g, s, q, m) && q.position == Square(r, c)
  {
    if g[r][c].Some? {
      MatchingChar(g[r][c].value, PieceMoves(g, g[r][c].value), s, q, m);
    }
  }

  lemma {:induction false} RowCandidatesChar(g: Grid, s: Search, r: int, n: int, q: Piece, m: Move)
    requires WellFormed(g) && Positioned(g) && 0 <= r < 8 && 0 <= n <= 8
    ensures (q, m) in RowCandidates(g, s, r, n) <==> Eligible(g, s, q, m) && q.position.row == r && q.position.col < n
    decreases n
  {
    if n > 0 {
      RowCandidatesChar(g, s, r, n - 1, q, m);
      SquareCandidatesChar(g, s, r, n - 1, q, m);
    }
  }

  lemma {:induction false} RowsCandidatesChar(g: Grid, s: Search, n: int, q: Piece, m: Move)
    requires WellFormed(g) && Positioned(g) && 0 <= n <= 8
    ensures (q, m) in RowsCandidates(g, s, n) <==> Eligible(g, s, q, m) && q.position.row < n
    decreases n
  {
    if n > 0 {
      RowsCandidatesChar(g, s, n - 1, q, m);
      RowCandidatesChar(g, s, n - 1, 8, q, m);
    }
  }

  /** The scan collects exactly the eligible pairs. */
  lemma CandidatesChar(g: Grid, s: Search, q: Piece, m: Move)
    requires WellFormed(g) && Positioned(g)
    ensures (q, m) in Candidates(g, s) <==> Eligible(g, s, q, m)
  {
    RowsCandidatesChar(g, s, 8, q, m);
  }

  /** No pair occurs twice in `cs`. */
  predicate NoRepeats(cs: seq<(Piece, Move)>)
  {
    forall i, j :: 0 <= i < j < |cs| ==> cs[i] != cs[j]
  }

  lemma NoRepeatsAppend(a: seq<(Piece, Move)>, b: seq<(Piece, Move)>)
    requires NoRepeats(a) && NoRepeats(b)
    requires forall x :: x in a ==> x !in b
    ensures NoRepeats(a + b)
  {
    forall i, j | 0 <= i < j < |a + b|
      ensures (a + b)[i] != (a + b)[j]
    {
      if j < |a| {
        assert (a + b)[i] == a[i] && (a + b)[j] == a[j];
      } else if i >= |a| {
        assert (a + b)[i] == b[i - |a|] && (a + b)[j] == b[j - |a|];
      } else {
        assert (a + b)[i] == a[i] && (a + b)[j] == b[j - |a|];
        assert a[i] in a;
      }
    }
  }

  lemma {:induction false} MatchingNoRepeats(p: Piece, moves: seq<Move>, s: Search)
    requires DistinctTargets(moves)
    ensures NoRepeats(Matching(p, moves, s))
    decreases |moves|
  {
    if moves != [] {
      var n := |moves| - 1;
      var init, last := moves[..n], moves[n];
      assert DistinctTargets(init) by {
        assert forall i :: 0 <= i < n ==> init[i] == moves[i];
      }
      MatchingNoRepeats(p, init, s);
      if Reaches(s, last) {
        assert last !in init by {
          forall i | 0 <= i < n
            ensures init[i] != last
          {
            assert init[i] == moves[i];
          }
        }
        MatchingChar(p, init, s, p, last);
        NoRepeatsAppend(Matching(p, init, s), [(p, last)]);
      }
    }
  }

  lemma SquareCandidatesNoRepeats(g: Grid, s: Search, r: int, c: int)
    requires WellFormed(g) && Positioned(g) && OnBoard(r, c)
    ensures NoRepeats(SquareCandidates(g, s, r, c))
  {
    if g[r][c].Some? {
      var p := g[r][c].value;
      PieceMovesDistinct(g, p);
      MatchingNoRepeats(p, PieceMoves(g, p), s);
    }
  }

  lemma {:induction false} RowCandidatesNoRepeats(g: Grid, s: Search, r: int, n: int)
    requires WellFormed(g) && Positioned(g) && 0 <= r < 8 && 0 <= n <= 8
    ensures NoRepeats(RowCandidates(g, s, r, n))
    decreases n
  {
    if n > 0 {
      RowCandidatesNoRepeats(g, s, r, n - 1);
      SquareCandidatesNoRepeats(g, s, r, n - 1);
      var before := RowCandidates(g, s, r, n - 1);
      forall x | x in before
        ensures x !in SquareCandidates(g, s, r, n - 1)
      {
        RowCandidatesChar(g, s, r, n - 1, x.0, x.1);
        SquareCandidatesChar(g, s, r, n - 1, x.0, x.1);
      }
      NoRepeatsAppend(RowCandidates(g, s, r, n - 1), SquareCandidates(g, s, r, n - 1));
    }
  }

  lemma {:induction false} RowsCandidatesNoRepeats(g: Grid, s: Search, n: int)
    requires WellFormed(g) && Positioned(g) && 0 <= n <= 8
    ensures NoRepeats(RowsCandidates(g, s, n))
    decreases n
  {
    if n > 0 {
      RowsCandidatesNoRepeats(g, s, n - 1);
      RowCandidatesNoRepeats(g, s, n - 1, 8);
      var before := RowsCandidates(g, s, n - 1);
      forall x | x in before
        ensures x !in RowCandidates(g, s, n - 1, 8)
      {
        RowsCandidatesChar(g, s, n - 1, x.0, x.1);
        RowCandidatesChar(g, s, n - 1, 8, x.0, x.1);
      }
      NoRepeatsAppend(RowsCandidates(g, s, n - 1), RowCandidates(g, s, n - 1, 8));
    }
  }

  /** The scan never collects the same pair twice, because no piece has two moves onto one square. */
  lemma CandidatesNoRepeats(g: Grid, s: Search)
    requires WellFormed(g) && Positioned(g)
    ensures NoRepeats(Candidates(g, s))
  {
    RowsCandidatesNoRepeats(g, s, 8);
  }

  /** (p, m) is eligible and no other pair is. */
  ghost predicate OnlyEligible(g: Grid, s: Search, p: Piece, m: Move)
    requires WellFormed(g)
  {
    Eligible(g, s, p, m) && forall q, m' :: Eligible(g, s, q, m') ==> q == p && m' == m
  }

  // ================================================================ moving a piece

  /** The grid after piece `p` makes move `m`: the destination receives the piece, now storing the
      destination and marked as moved, and the source square is emptied. */
  function ApplyMove(g: Grid, p: Piece, m: Move): (g': Grid)
    requires WellFormed(g) && OnBoard(m.fromRow, m.fromCol) && OnBoard(m.toRow, m.toCol)
    ensures WellFormed(g')
  {
    var moved := p.(position := Square(m.toRow, m.toCol), hasMoved := true);
    Set(Set(g, m.toRow, m.toCol, Some(moved)), m.fromRow, m.fromCol, None)
  }

  /** The outcome of `move_piece` (capture = false) or `move_piece_capture` (capture = true):
      success, and the new grid, exactly when the scan found one candidate. */
  function MoveResult(g: Grid, s: Search): (r: (bool, Grid))
    requires WellFormed(g) && Positioned(g)
    ensures WellFormed(r.1) && Positioned(r.1)
    ensures r.0 ==> OnBoard(s.to.row, s.to.col)
    ensures !r.0 ==> r.1 == g
  {
    var cs := Candidates(g, s);
    if |cs| == 1 then
      CandidatesChar(g, s, cs[0].0, cs[0].1);
      ApplyMoveEffect(g, s, cs[0].0, cs[0].1);
      (true, ApplyMove(g, cs[0].0, cs[0].1))
    else (false, g)
  }

  /** The only element of a one-element sequence. */
  lemma InSingleton<T>(cs: seq<T>, x: T)
    requires |cs| == 1 && x in cs
    ensures x == cs[0]
  {
  }

  /** When the scan finds a single candidate, it is the only eligible pair. */
  lemma SingleCandidate(g: Grid, s: Search)
    requires WellFormed(g) && Positioned(g) && |Candidates(g, s)| == 1
    ensures var p, m := Candidates(g, s)[0].0, Candidates(g, s)[0].1;
      Eligible(g, s, p, m) && forall q, m' :: Eligible(g, s, q, m') ==> q == p && m' == m
  {
    var cs := Candidates(g, s);
    CandidatesChar(g, s, cs[0].0, cs[0].1);
    forall q, m' | Eligible(g, s, q, m')
      ensures q == cs[0].0 && m' == cs[0].1
    {
      CandidatesChar(g, s, q, m');
      InSingleton(cs, (q, m'));
    }
  }

  /** Moving an eligible pair fills the destination with the piece (moved, storing its new square),
      empties its source and leaves every other square alone. */
  lemma ApplyMoveEffect(g: Grid, s: Search, p: Piece, m: Move)
    requires WellFormed(g) && Positioned(g) && Eligible(g, s, p, m)
    ensures m.fromRow == p.position.row && m.fromCol == p.position.col && OnBoard(m.toRow, m.toCol)
    ensures var g' := ApplyMove(g, p, m);
      g'[s.to.row][s.to.col] == Some(p.(position := s.to, hasMoved := true)) &&
      g'[p.position.row][p.position.col].None? &&
      Positioned(g') &&
      forall r, c :: OnBoard(r, c) && Square(r, c) != s.to && Square(r, c) != p.position ==> g'[r][c] == g[r][c]
  {
    MoveTargets(g, p, m);
  }

  /** A request succeeds exactly when the scan finds one candidate, which is then the only
      eligible pair and moves to the requested square, so it succeeds exactly when one pair is
      eligible; a failed request changes nothing. */
  lemma MoveOutcome(g: Grid, s: Search)
    requires WellFormed(g) && Positioned(g)
    ensures MoveResult(g, s).0 <==> exists p, m :: OnlyEligible(g, s, p, m)
    ensures var cs := Candidates(g, s);
      MoveResult(g, s).0 == (|cs| == 1) &&
      (|cs| != 1 ==> MoveResult(g, s).1 == g) &&
      (|cs| == 1 ==> Eligible(g, s, cs[0].0, cs[0].1) && OnBoard(s.to.row, s.to.col) &&
                     forall q, m :: Eligible(g, s, q, m) ==> q == cs[0].0 && m == cs[0].1)
  {
    if |Candidates(g, s)| == 1 {
      var p, m := Candidates(g, s)[0].0, Candidates(g, s)[0].1;
      SingleCandidate(g, s);
      ApplyMoveEffect(g, s, p, m);
      assert OnlyEligible(g, s, p, m);
    } else if exists p, m :: OnlyEligible(g, s, p, m) {
      var p, m :| OnlyEligible(g, s, p, m);
      MoveSucceedsWhenUnique(g, s, p, m);
    }
  }

  /** After a successful request the destination holds the moved piece (marked as moved and
      storing its new square), its source is empty, every other square is unchanged, and every
      piece still stores its own square. */
  lemma MoveEffect(g: Grid, s: Search)
    requires WellFormed(g) && Positioned(g) && MoveResult(g, s).0
    ensures var p, g' := Candidates(g, s)[0].0, MoveResult(g, s).1;
      Eligible(g, s, p, Candidates(g, s)[0].1) && OnBoard(s.to.row, s.to.col) &&
      g'[s.to.row][s.to.col] == Some(p.(position := s.to, hasMoved := true)) &&
      g'[p.position.row][p.position.col].None? &&
      Positioned(g') &&
      forall r, c :: OnBoard(r, c) && Square(r, c) != s.to && Square(r, c) != p.position ==> g'[r][c] == g[r][c]
  {
    var p, m := Candidates(g, s)[0].0, Candidates(g, s)[0].1;
    SingleCandidate(g, s);
    ApplyMoveEffect(g, s, p, m);
  }

  /** A request succeeds when exactly one pair is eligible. */
  lemma MoveSucceedsWhenUnique(g: Grid, s: Search, p: Piece, m: Move)
    requires WellFormed(g) && Positioned(g) && OnlyEligible(g, s, p, m)
    ensures MoveResult(g, s).0
  {
    var cs := Candidates(g, s);
    CandidatesChar(g, s, p, m);
    CandidatesNoRepeats(g, s);
    if |cs| >= 2 {
      CandidatesChar(g, s, cs[0].0, cs[0].1);
      CandidatesChar(g, s, cs[1].0, cs[1].1);
    }
  }

  /** A request fails when no pair is eligible. */
  lemma MoveFailsWithoutCandidate(g: Grid, s: Search)
    requires WellFormed(g) && Positioned(g)
    requires forall q, m :: !Eligible(g, s, q, m)
    ensures !MoveResult(g, s).0
  {
    var cs := Candidates(g, s);
    if |cs| == 1 {
      CandidatesChar(g, s, cs[0].0, cs[0].1);
    }
  }

  /** A request fails when two different pairs are eligible: the engine never chooses. */
  lemma MoveFailsWhenAmbiguous(g: Grid, s: Search, q1: Piece, m1: Move, q2: Piece, m2: Move)
    requires WellFormed(g) && Positioned(g)
    requires Eligible(g, s, q1, m1) && Eligible(g, s, q2, m2) && (q1, m1) != (q2, m2)
    ensures !MoveResult(g, s).0
  {
    var cs := Candidates(g, s);
    if |cs| == 1 {
      CandidatesChar(g, s, q1, m1);
      CandidatesChar(g, s, q2, m2);
      InSingleton(cs, (q1, m1));
      InSingleton(cs, (q2, m2));
    }
  }

  // ================================================================ attacked squares

  /** Some move of `moves` ends on (r, c). */
  predicate Hits(moves: seq<Move>, r: int, c: int)
  {
    exists i :: 0 <= i < |moves| && moves[i].toRow == r && moves[i].toCol == c
  }

  /** The piece on (sr, sc) belongs to the opponent of `color` and one of its moves ends on (r, c). */
  predicate AttacksFrom(g: Grid, color: Color, sr: int, sc: int, r: int, c: int)
    requires WellFormed(g) && Positioned(g) && OnBoard(sr, sc)
  {
    g[sr][sc].Some? && g[sr][sc].value.color == Opponent(color) && Hits(PieceMoves(g, g[sr][sc].value), r, c)
  }

  /** Square (r, c) is the destination of some move of some piece of the opponent of `color`. */
  predicate Attacked(g: Grid, color: Color, r: int, c: int)
    requires WellFormed(g) && Positioned(g)
  {
    exists sr, sc :: 0 <= sr < 8 && 0 <= sc < 8 && AttacksFrom(g, color, sr, sc, r, c)
  }

  // ================================================================ castling

  /** Every column strictly between the king's and the rook's, on the king's row, is empty. */
  predicate PathClear(g: Grid, kingFrom: Square, kingTo: Square, rookFrom: Square)
    requires WellFormed(g) && OnBoard(kingFrom.row, kingFrom.col) && OnBoard(rookFrom.row, rookFrom.col)
  {
    if kingTo.col > kingFrom.col then
      forall col :: kingFrom.col + 1 <= col < rookFrom.col ==> g[kingFrom.row][col].None?
    else
      forall col :: rookFrom.col + 1 <= col < kingFrom.col ==> g[kingFrom.row][col].None?
  }

  /** The two columns the king crosses, towards its destination. */
  function TransitCols(kingFrom: Square, kingTo: Square): seq<int>
  {
    if kingTo.col > kingFrom.col then [kingFrom.col + 1, kingFrom.col + 2]
    else [kingFrom.col - 1, kingFrom.col - 2]
  }

  /** When `castle` succeeds: a king on `kingFrom` and a rook on `rookFrom` (of any colour),
      nothing between them, the mover not flagged as in check, neither piece has moved, and
      neither square the king crosses is attacked by the king's opponent. */
  predicate CastleOk(g: Grid, flagged: bool, kingFrom: Square, kingTo: Square, rookFrom: Square)
    requires WellFormed(g) && Positioned(g)
    requires OnBoard(kingFrom.row, kingFrom.col) && OnBoard(rookFrom.row, rookFrom.col)
  {
    var king, rook := g[kingFrom.row][kingFrom.col], g[rookFrom.row][rookFrom.col];
    king.Some? && king.value.kind == King && rook.Some? && rook.value.kind == Rook &&
    PathClear(g, kingFrom, kingTo, rookFrom) && !flagged &&
    !king.value.hasMoved && !rook.value.hasMoved &&
    forall i :: 0 <= i < 2 ==> !Attacked(g, king.value.color, kingFrom.row, TransitCols(kingFrom, kingTo)[i])
  }

  /** The grid after castling: the king and then the rook are moved, each storing its new square
      and marked as moved. */
  function CastleResult(g: Grid, kingFrom: Square, kingTo: Square, rookFrom: Square, rookTo: Square): (g': Grid)
    requires WellFormed(g)
    requires OnBoard(kingFrom.row, kingFrom.col) && OnBoard(kingTo.row, kingTo.col)
    requires OnBoard(rookFrom.row, rookFrom.col) && OnBoard(rookTo.row, rookTo.col)
    requires g[kingFrom.row][kingFrom.col].Some? && g[rookFrom.row][rookFrom.col].Some?
    ensures WellFormed(g')
    ensures Positioned(g) ==> Positioned(g')
  {
    var king, rook := g[kingFrom.row][kingFrom.col].value, g[rookFrom.row][rookFrom.col].value;
    var g1 := Set(g, kingTo.row, kingTo.col, Some(king.(position := kingTo, hasMoved := true)));
    var g2 := Set(g1, kingFrom.row, kingFrom.col, None);
    var g3 := Set(g2, rookTo.row, rookTo.col, Some(rook.(position := rookTo, hasMoved := true)));
    Set(g3, rookFrom.row, rookFrom.col, None)
  }

  /** The squares the notation decoder passes for "O-O" (kingside) and "O-O-O" on `rank`. */
  predicate CastleSquares(rank: int, kingside: bool, kingFrom: Square, kingTo: Square, rookFrom: Square, rookTo: Square)
  {
    kingFrom == Square(rank, 4) &&
    if kingside then kingTo == Square(rank, 6) && rookFrom == Square(rank, 7) && rookTo == Square(rank, 5)
    else kingTo == Square(rank, 2) && rookFrom == Square(rank, 0) && rookTo == Square(rank, 3)
  }

  /** A successful castle on the decoder's squares never captures: the king's and rook's
      destinations were empty. Afterwards the king and the rook stand on them, marked as moved,
      both source squares are empty and nothing else has changed. */
  lemma CastleEffect(g: Grid, rank: int, kingside: bool, kingFrom: Square, kingTo: Square, rookFrom: Square, rookTo: Square)
    requires WellFormed(g) && Positioned(g) && (rank == 0 || rank == 7)
    requires CastleSquares(rank, kingside, kingFrom, kingTo, rookFrom, rookTo)
    requires CastleOk(g, false, kingFrom, kingTo, rookFrom)
    ensures var king, rook := g[rank][4].value, g[rookFrom.row][rookFrom.col].value;
      var g' := CastleResult(g, kingFrom, kingTo, rookFrom, rookTo);
      g[kingTo.row][kingTo.col].None? && g[rookTo.row][rookTo.col].None? &&
      g'[kingTo.row][kingTo.col] == Some(king.(position := kingTo, hasMoved := true)) &&
      g'[rookTo.row][rookTo.col] == Some(rook.(position := rookTo, hasMoved := true)) &&
      g'[rank][4].None? && g'[rookFrom.row][rookFrom.col].None? &&
      Positioned(g') &&
      (forall r, c :: OnBoard(r, c) && r != rank ==> g'[r][c] == g[r][c]) &&
      forall c :: 0 <= c < 8 && c != 4 && c != kingTo.col && c != rookFrom.col && c != rookTo.col ==>
        g'[rank][c] == g[rank][c]
  {
    if kingside {
      assert g[rank][4 + 1].None? && g[rank][4 + 2].None?;
    } else {
      assert g[rank][0 + 2].None? && g[rank][0 + 3].None?;
    }
  }

  // ================================================================ promotion

  /** When `promote_pawn` succeeds: a pawn on `pos`, white ones only on row 7, black ones only on row 0. */
  predicate CanPromote(g: Grid, pos: Square)
    requires WellFormed(g) && OnBoard(pos.row, pos.col)
  {
    var piece := g[pos.row][pos.col];
    piece.Some? && piece.value.kind == Pawn &&
    !((piece.value.color == White && pos.row != 7) || (piece.value.color == Black && pos.row != 0))
  }

  /** The grid with the kind of the piece on `pos` replaced. */
  function Promote(g: Grid, kind: PieceType, pos: Square): (g': Grid)
    requires WellFormed(g) && OnBoard(pos.row, pos.col) && g[pos.row][pos.col].Some?
    ensures WellFormed(g')
    ensures g'[pos.row][pos.col] == Some(g[pos.row][pos.col].value.(kind := kind))
    ensures forall r, c :: OnBoard(r, c) && Square(r, c) != pos ==> g'[r][c] == g[r][c]
    ensures Positioned(g) ==> Positioned(g')
  {
    Set(g, pos.row, pos.col, Some(g[pos.row][pos.col].value.(kind := kind)))
  }

  /** No pawn move ever ends where its pawn could be promoted: white pawns advance towards row 0
      but promote only on row 7, black pawns advance towards row 7 but promote only on row 0. */
  lemma PawnMoveNeverPromotes(g: Grid, p: Piece, m: Move)
    requires WellFormed(g) && Positioned(g) && OnBoard(p.position.row, p.position.col)
    requires p.kind == Pawn && m in PieceMoves(g, p)
    ensures m.fromRow == p.position.row && m.fromCol == p.position.col && OnBoard(m.toRow, m.toCol)
    ensures !CanPromote(ApplyMove(g, p, m), Square(m.toRow, m.toCol))
  {
    PawnMovesChar(g, p, m);
    MoveTargets(g, p, m);
  }

  // ================================================================ checkmate trial moves

  predicate KingOf(g: Grid, color: Color, r: int, c: int)
    requires WellFormed(g) && OnBoard(r, c)
  {
    g[r][c].Some? && g[r][c].value.kind == King && g[r][c].value.color == color
  }

  predicate HasKing(g: Grid, color: Color)
    requires WellFormed(g)
  {
    exists r, c :: 0 <= r < 8 && 0 <= c < 8 && KingOf(g, color, r, c)
  }

  /** The grid while king `p` tries move `m`: the piece (storing its trial square) is on the
      destination and its source is empty. */
  function TrialGrid(g: Grid, p: Piece, m: Move): (g': Grid)
    requires WellFormed(g) && OnBoard(m.fromRow, m.fromCol) && OnBoard(m.toRow, m.toCol)
    ensures WellFormed(g')
  {
    Set(Set(g, m.toRow, m.toCol, Some(p.(position := Square(m.toRow, m.toCol)))), m.fromRow, m.fromCol, None)
  }

  /** The i-th move of the king of `color` on (r, c) leaves the trial grid out of check. */
  ghost predicate Escapes(g: Grid, color: Color, inCheck: Grid -> bool, r: int, c: int, i: int)
    requires WellFormed(g) && Positioned(g)
  {
    OnBoard(r, c) && KingOf(g, color, r, c) &&
    var moves := PieceMoves(g, g[r][c].value);
    0 <= i < |moves| &&
    (MoveTargets(g, g[r][c].value, moves[i]);
     !inCheck(TrialGrid(g, g[r][c].value, moves[i])))
  }

  /** What `is_checkmate` reports, given the check test it uses: the side has a king, is in
      check, and no move of any of its kings leaves it out of check. */
  ghost predicate Checkmate(g: Grid, color: Color, inCheck: Grid -> bool)
    requires WellFormed(g) && Positioned(g)
  {
    HasKing(g, color) && inCheck(g) && !exists r, c, i :: Escapes(g, color, inCheck, r, c, i)
  }
}
