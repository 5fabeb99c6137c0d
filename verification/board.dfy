/** What the component hands to the board widget besides the position: the
    move highlights built for an armed square, the merged per-square style
    map, the board width, and the status line under the board.

    The widget's CSS objects become the four styles of `Style`.
 */
module Board {
  import opened Chess

  datatype Style =
    | Origin   // the armed square: translucent yellow background
    | Capture  // a destination holding an enemy piece: large dark ring
    | Quiet    // any other destination: small dark dot
    | Mark     // a right-click annotation: translucent blue background

  /** The style of one destination square: the capture ring exactly when the
      square is occupied by a piece whose colour differs from the moving
      piece's colour, the quiet dot otherwise (an en-passant destination is
      empty and gets the dot). */
  function DestinationStyle(o: Oracle, p: Position, mover: Color, to: Square): (r: Style)
    ensures r == Capture <==> o.get(p, to).Some? && o.get(p, to).value.color != mover
    ensures r == Quiet <==> !(o.get(p, to).Some? && o.get(p, to).value.color != mover)
  {
    match o.get(p, to)
    case Some(occupant) => if occupant.color != mover then Capture else Quiet
    case None => Quiet
  }

  /** Writes the style of each destination into `acc`, one move after the
      other, as the loop over the engine's verbose moves does: a destination
      that repeats is written again with the same style. */
  function PaintDestinations(o: Oracle, p: Position, mover: Color, acc: map<Square, Style>, dests: seq<Square>)
    : (r: map<Square, Style>)
    ensures r.Keys == acc.Keys + Targets(dests)
    ensures forall t :: t in dests ==> r[t] == DestinationStyle(o, p, mover, t)
    ensures forall t :: t in acc && t !in dests ==> r[t] == acc[t]
    decreases |dests|
  {
    if |dests| == 0 then acc
    else
      var d := dests[0];
      var r := PaintDestinations(o, p, mover, acc[d := DestinationStyle(o, p, mover, d)], dests[1..]);
      assert forall t :: t in dests ==> t == d || t in dests[1..];
      r
  }

  /** `getMoveOptions(square)`: no highlights (the function's `false`) when
      the engine lists no move from the square; otherwise every destination
      with its style and the square itself with the origin style, the latter
      written last so that it wins. The caller only ever passes a square
      holding a piece of the side to move, whose colour the capture test
      reads. */
  function GetMoveOptions(o: Oracle, p: Position, sq: Square): (r: Option<map<Square, Style>>)
    requires o.get(p, sq).Some?
    ensures r.None? <==> |o.moves(p, sq)| == 0
    ensures r.Some? ==> r.value.Keys == Targets(o.moves(p, sq)) + {sq}
    ensures r.Some? ==> r.value[sq] == Origin
    ensures r.Some? ==> forall t :: t in o.moves(p, sq) && t != sq ==>
      (r.value[t] == Capture <==> o.get(p, t).Some? && o.get(p, t).value.color != o.get(p, sq).value.color)
    ensures r.Some? ==> forall t :: t in r.value && t != sq ==> r.value[t] == Capture || r.value[t] == Quiet
  {
    var dests := o.moves(p, sq);
    if |dests| == 0 then None
    else Some(PaintDestinations(o, p, o.get(p, sq).value.color, map[], dests)[sq := Origin])
  }

  /** The `customSquareStyles` object: the spread of the move squares, then
      the option squares, then the right-click marks, so that a later map
      wins on a shared key. A mark entry whose value was toggled back to
      `undefined` (here `None`) still wins: the square is then drawn with no
      style at all, even if it is a highlighted destination. */
  function CustomSquareStyles(moveSquares: map<Square, Style>, optionSquares: map<Square, Style>,
                              rightClicked: map<Square, Option<Style>>)
    : (r: map<Square, Option<Style>>)
    ensures r.Keys == moveSquares.Keys + optionSquares.Keys + rightClicked.Keys
    ensures forall t :: t in rightClicked ==> r[t] == rightClicked[t]
    ensures forall t :: t in optionSquares && t !in rightClicked ==> r[t] == Some(optionSquares[t])
    ensures forall t :: t in moveSquares && t !in optionSquares && t !in rightClicked ==>
      r[t] == Some(moveSquares[t])
  {
    Defined(moveSquares) + Defined(optionSquares) + rightClicked
  }

  /** A style map seen as a map whose values may be `undefined`. */
  function Defined(m: map<Square, Style>): map<Square, Option<Style>>
  {
    map t | t in m :: Some(m[t])
  }

  /** The resize handler's board width: the least of the viewport width less
      40, the viewport height less 200, and 480. Nothing clamps it, so a
      viewport narrower than 40 or lower than 200 pixels gives a negative
      width. */
  function BoardSize(width: int, height: int): (r: int)
    ensures r <= 480 && r <= width - 40 && r <= height - 200
    ensures r == 480 || r == width - 40 || r == height - 200
    ensures r < 0 <==> width < 40 || height < 200
  {
    Min(Min(width - 40, height - 200), 480)
  }

  function Min(a: int, b: int): int
  {
    if a <= b then a else b
  }

  datatype Status = Ongoing | Draw | Checkmate(winner: Color)

  /** The status line and the checkmate modal: checkmate is tested before a
      draw, and the winner named is the side that is not to move. */
  function GameStatus(o: Oracle, p: Position): (r: Status)
    ensures r.Checkmate? <==> o.isCheckmate(p)
    ensures r.Checkmate? ==> r.winner != o.turn(p)
    ensures r == Draw <==> !o.isCheckmate(p) && o.isDraw(p)
    ensures r == Ongoing <==> !o.isCheckmate(p) && !o.isDraw(p)
  {
    if o.isCheckmate(p) then Checkmate(Opponent(o.turn(p)))
    else if o.isDraw(p) then Draw
    else Ongoing
  }
}
