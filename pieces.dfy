// The value layer of the chess rules engine: piece kinds, colours, squares,
// pieces, generated moves and the 8x8 grid of optional pieces.

module Pieces {

  datatype Option<T> = None | Some(value: T)

  /** The six kinds of piece. Promotion is the only operation that changes a piece's kind. */
  datatype PieceType = Pawn | Knight | Bishop | Rook | Queen | King

  /** The two sides; the engine spells them 'white' and 'black'. */
  datatype Color = White | Black

  /** The side that is not `c`. */
  function Opponent(c: Color): (o: Color)
    ensures o != c
  {
    if c == White then Black else White
  }

  /** A grid index: row 0 is the top of the board (black's home rank), row 7 the bottom. */
  datatype Square = Square(row: int, col: int)

  /** A piece with its stored grid position, its kind and whether it has moved. */
  datatype Piece = Piece(color: Color, position: Square, kind: PieceType, hasMoved: bool)

  /** A generated move. The fields are in the engine's constructor order:
      column before row, source before destination. */
  datatype Move = Move(fromCol: int, fromRow: int, toCol: int, toRow: int, isCapture: bool)

  /** A source constraint as the board's move operations receive it: `first`, when present,
      must equal the candidate's row and `second`, when present, its column. */
  datatype FromPos = FromPos(first: Option<int>, second: Option<int>)

  /** The board as a value: 8 rows of 8 optional pieces. */
  type Grid = seq<seq<Option<Piece>>>

  predicate OnBoard(r: int, c: int)
  {
    0 <= r < 8 && 0 <= c < 8
  }

  predicate WellFormed(g: Grid)
  {
    |g| == 8 && forall r :: 0 <= r < 8 ==> |g[r]| == 8
  }

  /** Every piece on the grid stores its own grid index as its position. */
  predicate Positioned(g: Grid)
    requires WellFormed(g)
  {
    forall r, c :: 0 <= r < 8 && 0 <= c < 8 && g[r][c].Some? ==> g[r][c].value.position == Square(r, c)
  }

  /** The grid with square (r, c) replaced by `x`; every other square is kept. */
  function Set(g: Grid, r: int, c: int, x: Option<Piece>): (g': Grid)
    requires WellFormed(g) && OnBoard(r, c)
    ensures WellFormed(g')
    ensures g'[r][c] == x
    ensures forall r', c' :: OnBoard(r', c') && (r' != r || c' != c) ==> g'[r'][c'] == g[r'][c']
  {
    g[r := g[r][c := x]]
  }

  /** Two grids that agree on every square are equal. */
  lemma GridExt(g1: Grid, g2: Grid)
    requires WellFormed(g1) && WellFormed(g2)
    requires forall r, c :: OnBoard(r, c) ==> g1[r][c] == g2[r][c]
    ensures g1 == g2
  {
    forall r | 0 <= r < 8
      ensures g1[r] == g2[r]
    {
      assert forall c :: 0 <= c < 8 ==> g1[r][c] == g2[r][c];
    }
  }
}
