/** The rules engine the interface delegates to, seen from outside.

    Nothing here knows chess: a position is an abstract value and every query
    the interface makes of the engine (`get`, `turn`, `moves`, `fen`, loading a
    FEN string, `move`, `isCheckmate`, `isDraw`) is a field of an `Oracle`
    value, an arbitrary total function. Everything proved about the interface
    therefore holds for every engine whatsoever.
 */
module Chess {

  /** The engine's game state: piece placement, side to move, castling and
      en-passant rights, counters. Opaque to the interface. */
  type Position

  datatype Option<+T> = None | Some(value: T)

  datatype Color = White | Black

  datatype Kind = Pawn | Knight | Bishop | Rook | Queen | King

  datatype Piece = Piece(color: Color, kind: Kind)

  /** A file or rank index, 0 to 7. */
  type Coord = i: int | 0 <= i < 8

  /** A board square, compared by coordinate. */
  datatype Square = Square(file: Coord, rank: Coord)

  /** What the engine's `move` call can do: hand back a move (the position it
      was applied to has then advanced to `after`), return a falsy value, or
      throw. */
  datatype MoveResult = Moved(after: Position) | Falsy | Threw

  datatype Oracle = Oracle(
    /** `new Chess()`: the standard starting position. */
    initial: Position,
    /** `get(square)`: the piece on a square, if any. */
    get: (Position, Square) -> Option<Piece>,
    /** `turn()`: the side to move. */
    turn: Position -> Color,
    /** `moves({square, verbose: true})`, reduced to each move's `to` field, in
        the engine's order; a destination repeats once per promotion piece. */
    moves: (Position, Square) -> seq<Square>,
    /** `fen()`: the position as a FEN string. */
    fen: Position -> string,
    /** `new Chess(fen)`: a fresh engine loaded from a FEN string. */
    load: string -> Position,
    /** `move({from, to, promotion})` on a position. */
    move: (Position, Square, Square, Kind) -> MoveResult,
    isCheckmate: Position -> bool,
    isDraw: Position -> bool
  )

  function Opponent(c: Color): (r: Color)
    ensures r != c
  {
    match c
    case White => Black
    case Black => White
  }

  /** The test at the head of the piece branch of a left click: the square
      holds a piece of the side to move. */
  predicate OwnPiece(o: Oracle, p: Position, sq: Square)
  {
    o.get(p, sq).Some? && o.get(p, sq).value.color == o.turn(p)
  }

  /** The set of squares a sequence of destinations mentions. */
  function Targets(dests: seq<Square>): set<Square>
  {
    set t | t in dests
  }
}
