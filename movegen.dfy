// Pseudo-legal move generation: the moves a piece may make from its stored
// position, in the order the engine lists them. Moves that leave the mover's own
// king in check are not filtered out, and there is no en passant.

module MoveGen {
  import opened Pieces

  /** The row step of a pawn: white pawns move towards row 0, black pawns towards row 7. */
  function Direction(c: Color): int
  {
    if c == White then -1 else 1
  }

  /** The row from which a pawn may advance two squares. */
  function StartRow(c: Color): int
  {
    if c == White then 6 else 1
  }

  // ---------------------------------------------------------------- pawns

  /** The one- and two-square advances of a pawn. */
  function PawnPushes(g: Grid, p: Piece): seq<Move>
    requires WellFormed(g) && OnBoard(p.position.row, p.position.col)
  {
    var row, col, d := p.position.row, p.position.col, Direction(p.color);
    if 0 <= row + d < 8 && g[row + d][col].None? then
      [Move(col, row, col, row + d, false)] +
      (if row == StartRow(p.color) && g[row + 2 * d][col].None?
       then [Move(col, row, col, row + 2 * d, false)] else [])
    else []
  }

  /** The diagonal capture of a pawn onto column `cc`, if an opponent piece stands there. */
  function PawnCapture(g: Grid, p: Piece, cc: int): seq<Move>
    requires WellFormed(g)
  {
    var row, col, d := p.position.row, p.position.col, Direction(p.color);
    if 0 <= cc < 8 && 0 <= row + d < 8 && g[row + d][cc].Some? && g[row + d][cc].value.color == Opponent(p.color)
    then [Move(col, row, cc, row + d, true)]
    else []
  }

  /** The diagonal captures onto each column of `cols`, in that order. */
  function PawnCaptures(g: Grid, p: Piece, cols: seq<int>): seq<Move>
    requires WellFormed(g)
    decreases |cols|
  {
    if cols == [] then []
    else PawnCaptures(g, p, cols[..|cols| - 1]) + PawnCapture(g, p, cols[|cols| - 1])
  }

  function PawnMoves(g: Grid, p: Piece): seq<Move>
    requires WellFormed(g) && OnBoard(p.position.row, p.position.col)
  {
    PawnPushes(g, p) + PawnCaptures(g, p, [p.position.col - 1, p.position.col + 1])
  }

  // ---------------------------------------------------------------- knights and kings

  const KnightOffsets: seq<(int, int)> :=
    [(-2, -1), (-2, 1), (-1, -2), (-1, 2), (1, -2), (1, 2), (2, -1), (2, 1)]

  const KingOffsets: seq<(int, int)> :=
    [(-1, -1), (-1, 0), (-1, 1), (0, -1), (0, 1), (1, -1), (1, 0), (1, 1)]

  /** The move by the fixed (row, column) offset `o`, unless it leaves the board or lands on a friendly piece. */
  function StepMove(g: Grid, p: Piece, o: (int, int)): seq<Move>
    requires WellFormed(g)
  {
    var row, col := p.position.row, p.position.col;
    var nr, nc := row + o.0, col + o.1;
    if OnBoard(nr, nc) then
      if g[nr][nc].None? then [Move(col, row, nc, nr, false)]
      else if g[nr][nc].value.color != p.color then [Move(col, row, nc, nr, true)]
      else []
    else []
  }

  function StepMoves(g: Grid, p: Piece, offsets: seq<(int, int)>): seq<Move>
    requires WellFormed(g)
    decreases |offsets|
  {
    if offsets == [] then []
    else StepMoves(g, p, offsets[..|offsets| - 1]) + StepMove(g, p, offsets[|offsets| - 1])
  }

  // ---------------------------------------------------------------- sliding pieces

  const BishopDirections: seq<(int, int)> := [(-1, -1), (-1, 1), (1, -1), (1, 1)]

  const RookDirections: seq<(int, int)> := [(-1, 0), (1, 0), (0, -1), (0, 1)]

  const QueenDirections: seq<(int, int)> :=
    [(-1, -1), (-1, 0), (-1, 1), (0, -1), (0, 1), (1, -1), (1, 0), (1, 1)]

  /** A ray direction: each component in -1..1, not both zero. */
  predicate Unit(d: (int, int))
  {
    -1 <= d.0 <= 1 && -1 <= d.1 <= 1 && d != (0, 0)
  }

  predicate Units(ds: seq<(int, int)>)
  {
    forall i :: 0 <= i < |ds| ==> Unit(ds[i])
  }

  /** How many steps in direction `d` remain on the board from coordinate `x`. */
  function Room(x: int, d: int): int
  {
    if d > 0 then 7 - x else if d < 0 then x else 0
  }

  /** The rest of a ray that continues at square (r, c): empty squares are non-captures, and the
      ray stops at the board edge or at the first occupied square, which is a capture when it
      holds an opponent piece. */
  function RayFrom(g: Grid, p: Piece, r: int, c: int, dr: int, dc: int): seq<Move>
    requires WellFormed(g) && Unit((dr, dc))
    decreases if OnBoard(r, c) then Room(r, dr) + Room(c, dc) + 1 else 0
  {
    if !OnBoard(r, c) then []
    else if g[r][c].None? then [Move(p.position.col, p.position.row, c, r, false)] + RayFrom(g, p, r + dr, c + dc, dr, dc)
    else if g[r][c].value.color != p.color then [Move(p.position.col, p.position.row, c, r, true)]
    else []
  }

  /** The rays of `dirs`, one after the other. */
  function RayMoves(g: Grid, p: Piece, dirs: seq<(int, int)>): seq<Move>
    requires WellFormed(g) && Units(dirs)
    decreases |dirs|
  {
    if dirs == [] then []
    else
      var d := dirs[|dirs| - 1];
      RayMoves(g, p, dirs[..|dirs| - 1]) + RayFrom(g, p, p.position.row + d.0, p.position.col + d.1, d.0, d.1)
  }

  // ---------------------------------------------------------------- all kinds

  /** The pseudo-legal moves of `p` on `g`, in the engine's order. */
  function PieceMoves(g: Grid, p: Piece): seq<Move>
    requires WellFormed(g) && OnBoard(p.position.row, p.position.col)
  {
    match p.kind
    case Pawn => PawnMoves(g, p)
    case Knight => StepMoves(g, p, KnightOffsets)
    case Bishop => RayMoves(g, p, BishopDirections)
    case Rook => RayMoves(g, p, RookDirections)
    case Queen => RayMoves(g, p, QueenDirections)
    case King => StepMoves(g, p, KingOffsets)
  }

  // ================================================================ reference definitions

  /** A pawn move, declaratively: a non-capture advances one square onto an empty square in its
      own column, or two squares from its start row over two empty squares; a capture goes one
      row forward and one column aside onto an opponent piece. */
  predicate PawnTarget(g: Grid, p: Piece, m: Move)
    requires WellFormed(g) && OnBoard(p.position.row, p.position.col)
  {
    var row, col, d := p.position.row, p.position.col, Direction(p.color);
    m.fromRow == row && m.fromCol == col &&
    if !m.isCapture then
      m.toCol == col && 0 <= row + d < 8 && g[row + d][col].None? &&
      (m.toRow == row + d ||
       (m.toRow == row + 2 * d && row == StartRow(p.color) && g[row + 2 * d][col].None?))
    else
      m.toRow == row + d && (m.toCol == col - 1 || m.toCol == col + 1) && OnBoard(m.toRow, m.toCol) &&
      g[m.toRow][m.toCol].Some? && g[m.toRow][m.toCol].value.color == Opponent(p.color)
  }

  /** The move by offset `o`: on the board, not onto a friendly piece, a capture exactly when the
      square is occupied. */
  predicate StepTarget(g: Grid, p: Piece, o: (int, int), m: Move)
    requires WellFormed(g)
  {
    var row, col := p.position.row, p.position.col;
    var nr, nc := row + o.0, col + o.1;
    OnBoard(nr, nc) && (g[nr][nc].None? || g[nr][nc].value.color != p.color) &&
    m == Move(col, row, nc, nr, g[nr][nc].Some?)
  }

  /** Coordinate `x` moved `k` steps in direction `d`. */
  function Shift(x: int, d: int, k: int): int
  {
    if d > 0 then x + k else if d < 0 then x - k else x
  }

  /** The squares 1 .. k-1 along (dr, dc) from the piece are on the board and empty. */
  predicate ClearBefore(g: Grid, p: Piece, dr: int, dc: int, k: int)
    requires WellFormed(g)
  {
    forall j :: 1 <= j < k ==>
      OnBoard(Shift(p.position.row, dr, j), Shift(p.position.col, dc, j)) &&
      g[Shift(p.position.row, dr, j)][Shift(p.position.col, dc, j)].None?
  }

  /** The move onto the k-th square along (dr, dc): every square before it is empty, and it is
      empty (a non-capture) or holds an opponent piece (a capture). */
  predicate RayTarget(g: Grid, p: Piece, dr: int, dc: int, k: int, m: Move)
    requires WellFormed(g)
  {
    var row, col := p.position.row, p.position.col;
    var r, c := Shift(row, dr, k), Shift(col, dc, k);
    k >= 1 && ClearBefore(g, p, dr, dc, k) && OnBoard(r, c) &&
    (g[r][c].None? || g[r][c].value.color != p.color) &&
    m == Move(col, row, c, r, g[r][c].Some?)
  }

  function SlidingDirections(kind: PieceType): (ds: seq<(int, int)>)
    requires kind == Bishop || kind == Rook || kind == Queen
    ensures Units(ds)
  {
    if kind == Bishop then BishopDirections else if kind == Rook then RookDirections else QueenDirections
  }

  // ================================================================ characterisations

  lemma PawnCapturesPair(g: Grid, p: Piece, a: int, b: int)
    requires WellFormed(g)
    ensures PawnCaptures(g, p, [a, b]) == PawnCapture(g, p, a) + PawnCapture(g, p, b)
  {
    assert [a, b][..1] == [a];
    assert [a][..0] == [];
    assert PawnCaptures(g, p, [a]) == [] + PawnCapture(g, p, a);
  }

  /** A pawn generates exactly the moves of the reference definition. */
  lemma PawnMovesChar(g: Grid, p: Piece, m: Move)
    requires WellFormed(g) && OnBoard(p.position.row, p.position.col) && p.kind == Pawn
    ensures m in PieceMoves(g, p) <==> PawnTarget(g, p, m)
  {
    PawnCapturesPair(g, p, p.position.col - 1, p.position.col + 1);
  }

  lemma StepMoveChar(g: Grid, p: Piece, o: (int, int), m: Move)
    requires WellFormed(g)
    ensures m in StepMove(g, p, o) <==> StepTarget(g, p, o, m)
  {
  }

  lemma {:induction false} StepMovesChar(g: Grid, p: Piece, offsets: seq<(int, int)>, m: Move)
    requires WellFormed(g)
    ensures m in StepMoves(g, p, offsets) <==> exists i :: 0 <= i < |offsets| && StepTarget(g, p, offsets[i], m)
    decreases |offsets|
  {
    if offsets != [] {
      var n := |offsets| - 1;
      var init, last := offsets[..n], offsets[n];
      assert StepMoves(g, p, offsets) == StepMoves(g, p, init) + StepMove(g, p, last);
      StepMovesChar(g, p, init, m);
      StepMoveChar(g, p, last, m);
      if m in StepMoves(g, p, offsets) {
        if m in StepMoves(g, p, init) {
          var i :| 0 <= i < n && StepTarget(g, p, init[i], m);
          assert offsets[i] == init[i];
        } else {
          assert StepTarget(g, p, offsets[n], m);
        }
      } else {
        forall i | 0 <= i < |offsets|
          ensures !StepTarget(g, p, offsets[i], m)
        {
          if i < n {
            assert offsets[i] == init[i];
          }
        }
      }
    }
  }

  /** A knight goes to one of its eight fixed offsets, on the board and not onto a friendly piece. */
  lemma KnightMovesChar(g: Grid, p: Piece, m: Move)
    requires WellFormed(g) && OnBoard(p.position.row, p.position.col) && p.kind == Knight
    ensures m in PieceMoves(g, p) <==> exists i :: 0 <= i < 8 && StepTarget(g, p, KnightOffsets[i], m)
  {
    StepMovesChar(g, p, KnightOffsets, m);
  }

  /** A king goes one square in any of the eight directions, on the board and not onto a friendly piece. */
  lemma KingMovesChar(g: Grid, p: Piece, m: Move)
    requires WellFormed(g) && OnBoard(p.position.row, p.position.col) && p.kind == King
    ensures m in PieceMoves(g, p) <==> exists i :: 0 <= i < 8 && StepTarget(g, p, KingOffsets[i], m)
  {
    StepMovesChar(g, p, KingOffsets, m);
  }

  lemma {:induction false} RayFromChar(g: Grid, p: Piece, dr: int, dc: int, k0: int, m: Move)
    requires WellFormed(g) && Unit((dr, dc)) && k0 >= 1 && ClearBefore(g, p, dr, dc, k0)
    ensures m in RayFrom(g, p, Shift(p.position.row, dr, k0), Shift(p.position.col, dc, k0), dr, dc)
        <==> exists k :: k >= k0 && RayTarget(g, p, dr, dc, k, m)
    decreases var r, c := Shift(p.position.row, dr, k0), Shift(p.position.col, dc, k0);
      if OnBoard(r, c) then Room(r, dr) + Room(c, dc) + 1 else 0
  {
    var row, col := p.position.row, p.position.col;
    var r, c := Shift(row, dr, k0), Shift(col, dc, k0);
    if !OnBoard(r, c) {
      forall k | k >= k0
        ensures !RayTarget(g, p, dr, dc, k, m)
      {
        if k > k0 {
          assert !OnBoard(Shift(row, dr, k0), Shift(col, dc, k0));
          assert !ClearBefore(g, p, dr, dc, k);
        }
      }
    } else if g[r][c].None? {
      assert Shift(row, dr, k0 + 1) == r + dr && Shift(col, dc, k0 + 1) == c + dc;
      assert ClearBefore(g, p, dr, dc, k0 + 1);
      RayFromChar(g, p, dr, dc, k0 + 1, m);
      if m == Move(col, row, c, r, false) {
        assert RayTarget(g, p, dr, dc, k0, m);
      }
      if exists k :: k >= k0 && RayTarget(g, p, dr, dc, k, m) {
        var k :| k >= k0 && RayTarget(g, p, dr, dc, k, m);
        if k == k0 {
          assert m == Move(col, row, c, r, false);
        } else {
          assert k >= k0 + 1;
        }
      }
    } else {
      forall k | k > k0
        ensures !RayTarget(g, p, dr, dc, k, m)
      {
        assert !g[Shift(row, dr, k0)][Shift(col, dc, k0)].None?;
        assert !ClearBefore(g, p, dr, dc, k);
      }
      if g[r][c].value.color != p.color && m == Move(col, row, c, r, true) {
        assert RayTarget(g, p, dr, dc, k0, m);
      }
    }
  }

  /** One ray from the piece yields exactly the moves onto its reachable squares. */
  lemma RayChar(g: Grid, p: Piece, dr: int, dc: int, m: Move)
    requires WellFormed(g) && Unit((dr, dc))
    ensures m in RayFrom(g, p, p.position.row + dr, p.position.col + dc, dr, dc)
        <==> exists k :: RayTarget(g, p, dr, dc, k, m)
  {
    assert Shift(p.position.row, dr, 1) == p.position.row + dr;
    assert Shift(p.position.col, dc, 1) == p.position.col + dc;
    RayFromChar(g, p, dr, dc, 1, m);
  }

  lemma {:induction false} RayMovesChar(g: Grid, p: Piece, dirs: seq<(int, int)>, m: Move)
    requires WellFormed(g) && Units(dirs)
    ensures m in RayMoves(g, p, dirs) <==>
      exists i, k :: 0 <= i < |dirs| && RayTarget(g, p, dirs[i].0, dirs[i].1, k, m)
    decreases |dirs|
  {
    if dirs != [] {
      var n := |dirs| - 1;
      var init := dirs[..n];
      var d := dirs[n];
      assert forall i :: 0 <= i < n ==> init[i] == dirs[i];
      RayMovesChar(g, p, init, m);
      RayChar(g, p, d.0, d.1, m);
      if m in RayMoves(g, p, dirs) {
        if m !in RayMoves(g, p, init) {
          var k :| RayTarget(g, p, d.0, d.1, k, m);
          assert 0 <= n < |dirs| && RayTarget(g, p, dirs[n].0, dirs[n].1, k, m);
        }
      }
      if exists i, k :: 0 <= i < |dirs| && RayTarget(g, p, dirs[i].0, dirs[i].1, k, m) {
        var i, k :| 0 <= i < |dirs| && RayTarget(g, p, dirs[i].0, dirs[i].1, k, m);
        if i < n {
          assert RayTarget(g, p, init[i].0, init[i].1, k, m);
        }
      }
    }
  }

  /** A bishop, rook or queen reaches exactly the squares along its directions up to and including
      the first occupied one, which it captures only when it holds an opponent piece. */
  lemma SlidingMovesChar(g: Grid, p: Piece, m: Move)
    requires WellFormed(g) && OnBoard(p.position.row, p.position.col)
    requires p.kind == Bishop || p.kind == Rook || p.kind == Queen
    ensures var ds := SlidingDirections(p.kind);
      m in PieceMoves(g, p) <==> exists i, k :: 0 <= i < |ds| && RayTarget(g, p, ds[i].0, ds[i].1, k, m)
  {
    RayMovesChar(g, p, SlidingDirections(p.kind), m);
  }

  /** Every generated move starts at the piece, ends on the board and never on a friendly piece,
      and is flagged as a capture exactly when its destination is occupied. */
  lemma MoveTargets(g: Grid, p: Piece, m: Move)
    requires WellFormed(g) && OnBoard(p.position.row, p.position.col) && m in PieceMoves(g, p)
    ensures m.fromRow == p.position.row && m.fromCol == p.position.col
    ensures OnBoard(m.toRow, m.toCol)
    ensures m.isCapture <==> g[m.toRow][m.toCol].Some?
    ensures m.isCapture ==> g[m.toRow][m.toCol].value.color != p.color
  {
    match p.kind
    case Pawn => PawnMovesChar(g, p, m);
    case Knight =>
      KnightMovesChar(g, p, m);
      var i :| 0 <= i < 8 && StepTarget(g, p, KnightOffsets[i], m);
      StepTargetLands(g, p, KnightOffsets[i], m);
    case King =>
      KingMovesChar(g, p, m);
      var i :| 0 <= i < 8 && StepTarget(g, p, KingOffsets[i], m);
      StepTargetLands(g, p, KingOffsets[i], m);
    case _ =>
      var ds := SlidingDirections(p.kind);
      SlidingMovesChar(g, p, m);
      var i, k :| 0 <= i < |ds| && RayTarget(g, p, ds[i].0, ds[i].1, k, m);
      RayTargetLands(g, p, ds[i].0, ds[i].1, k, m);
  }

  lemma StepTargetLands(g: Grid, p: Piece, o: (int, int), m: Move)
    requires WellFormed(g) && StepTarget(g, p, o, m)
    ensures m.fromRow == p.position.row && m.fromCol == p.position.col && OnBoard(m.toRow, m.toCol)
    ensures m.isCapture <==> g[m.toRow][m.toCol].Some?
    ensures m.isCapture ==> g[m.toRow][m.toCol].value.color != p.color
  {
  }

  lemma RayTargetLands(g: Grid, p: Piece, dr: int, dc: int, k: int, m: Move)
    requires WellFormed(g) && RayTarget(g, p, dr, dc, k, m)
    ensures m.fromRow == p.position.row && m.fromCol == p.position.col && OnBoard(m.toRow, m.toCol)
    ensures m.isCapture <==> g[m.toRow][m.toCol].Some?
    ensures m.isCapture ==> g[m.toRow][m.toCol].value.color != p.color
  {
  }

  // ================================================================ no two moves to one square

  /** No two moves of `ms` end on the same square. */
  predicate DistinctTargets(ms: seq<Move>)
  {
    forall i, j :: 0 <= i < j < |ms| ==> ms[i].toRow != ms[j].toRow || ms[i].toCol != ms[j].toCol
  }

  /** No offset or direction occurs twice. */
  predicate DistinctSteps(os: seq<(int, int)>)
  {
    forall i, j :: 0 <= i < j < |os| ==> os[i] != os[j]
  }

  /** Coordinate `y` lies at or beyond `x` in direction `d`, and equals `x` when `d` is 0. */
  predicate Beyond(x: int, d: int, y: int)
  {
    if d > 0 then y >= x else if d < 0 then y <= x else y == x
  }

  lemma DistinctTargetsAppend(a: seq<Move>, b: seq<Move>)
    requires DistinctTargets(a) && DistinctTargets(b)
    requires forall x, y :: x in a && y in b ==> x.toRow != y.toRow || x.toCol != y.toCol
    ensures DistinctTargets(a + b)
  {
    forall i, j | 0 <= i < j < |a + b|
      ensures (a + b)[i].toRow != (a + b)[j].toRow || (a + b)[i].toCol != (a + b)[j].toCol
    {
      if j < |a| {
        assert (a + b)[i] == a[i] && (a + b)[j] == a[j];
      } else if i >= |a| {
        assert (a + b)[i] == b[i - |a|] && (a + b)[j] == b[j - |a|];
      } else {
        assert (a + b)[i] == a[i] && (a + b)[j] == b[j - |a|];
      }
    }
  }

  /** The offset and direction tables list each step once. */
  lemma TablesDistinct()
    ensures DistinctSteps(KnightOffsets) && DistinctSteps(KingOffsets)
    ensures DistinctSteps(BishopDirections) && DistinctSteps(RookDirections) && DistinctSteps(QueenDirections)
  {
  }

  /** The pushes stay in the pawn's column at different rows; the captures go to the two
      neighbouring columns. */
  lemma PawnMovesDistinct(g: Grid, p: Piece)
    requires WellFormed(g) && OnBoard(p.position.row, p.position.col) && p.kind == Pawn
    ensures DistinctTargets(PieceMoves(g, p))
  {
    var col := p.position.col;
    var left, right := PawnCapture(g, p, col - 1), PawnCapture(g, p, col + 1);
    PawnCapturesPair(g, p, col - 1, col + 1);
    DistinctTargetsAppend(left, right);
    DistinctTargetsAppend(PawnPushes(g, p), left + right);
  }

  lemma {:induction false} StepMovesDistinct(g: Grid, p: Piece, offsets: seq<(int, int)>)
    requires WellFormed(g) && DistinctSteps(offsets)
    ensures DistinctTargets(StepMoves(g, p, offsets))
    decreases |offsets|
  {
    if offsets != [] {
      var n := |offsets| - 1;
      var init, last := offsets[..n], offsets[n];
      assert forall i :: 0 <= i < n ==> init[i] == offsets[i];
      StepMovesDistinct(g, p, init);
      forall x, y | x in StepMoves(g, p, init) && y in StepMove(g, p, last)
        ensures x.toRow != y.toRow || x.toCol != y.toCol
      {
        StepMovesChar(g, p, init, x);
        StepMoveChar(g, p, last, y);
        var i :| 0 <= i < n && StepTarget(g, p, init[i], x);
        assert offsets[i] != offsets[n];
      }
      DistinctTargetsAppend(StepMoves(g, p, init), StepMove(g, p, last));
    }
  }

  /** The squares of a ray are all different, and all lie at or beyond its first square. */
  lemma {:induction false} RayFromDistinct(g: Grid, p: Piece, r: int, c: int, dr: int, dc: int)
    requires WellFormed(g) && Unit((dr, dc))
    ensures DistinctTargets(RayFrom(g, p, r, c, dr, dc))
    ensures forall m :: m in RayFrom(g, p, r, c, dr, dc) ==> Beyond(r, dr, m.toRow) && Beyond(c, dc, m.toCol)
    decreases if OnBoard(r, c) then Room(r, dr) + Room(c, dc) + 1 else 0
  {
    if OnBoard(r, c) && g[r][c].None? {
      var rest := RayFrom(g, p, r + dr, c + dc, dr, dc);
      RayFromDistinct(g, p, r + dr, c + dc, dr, dc);
      DistinctTargetsAppend([Move(p.position.col, p.position.row, c, r, false)], rest);
    }
  }

  /** The k-th square along a direction lies beyond the first one. */
  lemma RayTargetBeyond(g: Grid, p: Piece, dr: int, dc: int, k: int, m: Move)
    requires WellFormed(g) && Unit((dr, dc)) && RayTarget(g, p, dr, dc, k, m)
    ensures Beyond(p.position.row + dr, dr, m.toRow) && Beyond(p.position.col + dc, dc, m.toCol)
  {
  }

  lemma {:induction false} RayMovesDistinct(g: Grid, p: Piece, dirs: seq<(int, int)>)
    requires WellFormed(g) && Units(dirs) && DistinctSteps(dirs)
    ensures DistinctTargets(RayMoves(g, p, dirs))
    decreases |dirs|
  {
    if dirs != [] {
      var n := |dirs| - 1;
      var init, d := dirs[..n], dirs[n];
      var row, col := p.position.row, p.position.col;
      assert forall i :: 0 <= i < n ==> init[i] == dirs[i];
      RayMovesDistinct(g, p, init);
      RayFromDistinct(g, p, row + d.0, col + d.1, d.0, d.1);
      forall x, y | x in RayMoves(g, p, init) && y in RayFrom(g, p, row + d.0, col + d.1, d.0, d.1)
        ensures x.toRow != y.toRow || x.toCol != y.toCol
      {
        RayMovesChar(g, p, init, x);
        var i, k :| 0 <= i < n && RayTarget(g, p, init[i].0, init[i].1, k, x);
        assert Unit(init[i]);
        RayTargetBeyond(g, p, init[i].0, init[i].1, k, x);
        assert dirs[i] != dirs[n] && Unit(dirs[i]) && Unit(d);
      }
      DistinctTargetsAppend(RayMoves(g, p, init), RayFrom(g, p, row + d.0, col + d.1, d.0, d.1));
    }
  }

  /** No piece has two moves onto the same square. */
  lemma PieceMovesDistinct(g: Grid, p: Piece)
    requires WellFormed(g) && OnBoard(p.position.row, p.position.col)
    ensures DistinctTargets(PieceMoves(g, p))
  {
    TablesDistinct();
    match p.kind
    case Pawn => PawnMovesDistinct(g, p);
    case Knight => StepMovesDistinct(g, p, KnightOffsets);
    case King => StepMovesDistinct(g, p, KingOffsets);
    case _ => RayMovesDistinct(g, p, SlidingDirections(p.kind));
  }
}
