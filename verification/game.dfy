/** The `ChessGame` component: its state record and its event handlers.

    React state setters do not take effect where they are called: every
    setter call made while one handler runs is queued, and the next render
    sees them applied in call order, so the last write to a piece of state
    wins. Each handler is therefore written the way the component writes it,
    as the sequence of setter calls it makes (`ClickSetters`,
    `RightClickSetters`, `RestartSetters`), and its effect is that sequence
    committed to the state (`Commit`). The lemmas below then say, branch by
    branch, which state a handler leaves behind.
 */
module ChessGame {
  import opened Chess
  import opened Board

  /** The component's state hooks. `moveFrom` is the armed square; the
      component's empty string, which is falsy and equal to no square, is
      `None`. A right-click entry is `None` once toggled back to
      `undefined`. */
  datatype State = State(
    game: Position,
    moveFrom: Option<Square>,
    rightClickedSquares: map<Square, Option<Style>>,
    moveSquares: map<Square, Style>,
    optionSquares: map<Square, Style>,
    boardWidth: int
  )

  /** One call of a state setter. */
  datatype Update =
    | SetGame(game: Position)
    | SetMoveFrom(moveFrom: Option<Square>)
    | SetRightClickedSquares(marks: map<Square, Option<Style>>)
    | SetMoveSquares(squares: map<Square, Style>)
    | SetOptionSquares(options: map<Square, Style>)
    | SetBoardWidth(width: int)

  function Apply(s: State, u: Update): State
  {
    match u
    case SetGame(g) => s.(game := g)
    case SetMoveFrom(m) => s.(moveFrom := m)
    case SetRightClickedSquares(marks) => s.(rightClickedSquares := marks)
    case SetMoveSquares(squares) => s.(moveSquares := squares)
    case SetOptionSquares(options) => s.(optionSquares := options)
    case SetBoardWidth(w) => s.(boardWidth := w)
  }

  /** The state the next render sees after a handler made the setter calls
      `us`, in that order. */
  function Commit(s: State, us: seq<Update>): State
    decreases |us|
  {
    if |us| == 0 then s else Commit(Apply(s, us[0]), us[1..])
  }

  /** Committing two batches one after the other is committing them as one:
      in particular the last call in a batch is applied last. */
  lemma {:induction false} CommitAppend(s: State, us: seq<Update>, vs: seq<Update>)
    ensures Commit(s, us + vs) == Commit(Commit(s, us), vs)
    decreases |us|
  {
    if |us| == 0 {
      assert us + vs == vs;
    } else {
      assert (us + vs)[0] == us[0];
      assert (us + vs)[1..] == us[1..] + vs;
      CommitAppend(Apply(s, us[0]), us[1..], vs);
    }
  }

  /** A single setter call. */
  lemma CommitSingle(s: State, a: Update)
    ensures Commit(s, [a]) == Apply(s, a)
  {
  }

  /** Two setter calls in a row. */
  lemma CommitPair(s: State, a: Update, b: Update)
    ensures Commit(s, [a, b]) == Apply(Apply(s, a), b)
  {
    assert [a, b][1..] == [b];
    assert [b][1..] == [];
    assert Commit(Apply(s, a), [b]) == Commit(Apply(Apply(s, a), b), []);
  }

  /** Three setter calls in a row. */
  lemma CommitTriple(s: State, a: Update, b: Update, c: Update)
    ensures Commit(s, [a, b, c]) == Apply(Apply(Apply(s, a), b), c)
  {
    assert [a, b, c][1..] == [b, c];
    CommitPair(Apply(s, a), b, c);
  }

  /** The first setter call of a batch is applied first. */
  lemma CommitCons(s: State, u: Update, rest: seq<Update>)
    ensures Commit(s, [u] + rest) == Commit(Apply(s, u), rest)
  {
  }

  /** The state of a freshly mounted component. */
  function Initial(o: Oracle): (r: State)
    ensures Inv(o, r)
  {
    State(o.initial, None, map[], map[], map[], 480)
  }

  /** Mounting: the effect runs the resize handler once, so the first state
      the player sees has the width the viewport allows. */
  function Mount(o: Oracle, width: int, height: int): (r: State)
    ensures Inv(o, r)
    ensures r.boardWidth == BoardSize(width, height)
    ensures r.(boardWidth := 480) == Initial(o)
  {
    HandleResize(Initial(o), width, height)
  }

  /** The square may be armed: it holds a piece of the side to move and the
      engine lists at least one move from it. */
  predicate Armable(o: Oracle, p: Position, sq: Square)
  {
    OwnPiece(o, p, sq) && |o.moves(p, sq)| > 0
  }

  /** What every handler keeps true: no move squares are ever set; a mark
      entry is the blue mark or `undefined`; with nothing armed there are no
      highlights; an armed square may be armed in the current position and
      the highlights are exactly the ones built for it. */
  predicate Inv(o: Oracle, s: State)
  {
    && s.moveSquares == map[]
    && (forall t :: t in s.rightClickedSquares ==>
          s.rightClickedSquares[t] == None || s.rightClickedSquares[t] == Some(Mark))
    && (s.moveFrom.None? ==> s.optionSquares == map[])
    && (s.moveFrom.Some? ==>
          Armable(o, s.game, s.moveFrom.value) &&
          GetMoveOptions(o, s.game, s.moveFrom.value) == Some(s.optionSquares))
  }

  /** The invariant in the terms of the highlights alone: nothing highlighted
      while nothing is armed, and the armed square drawn in the origin style,
      holding a piece of the side to move. */
  lemma InvHighlights(o: Oracle, s: State)
    requires Inv(o, s)
    ensures s.moveFrom.None? ==> s.optionSquares == map[]
    ensures s.moveFrom.Some? ==>
      s.moveFrom.value in s.optionSquares && s.optionSquares[s.moveFrom.value] == Origin
    ensures s.moveFrom.Some? ==> OwnPiece(o, s.game, s.moveFrom.value)
  {
  }

  // ---------------------------------------------------------------- left click

  /** The setter calls `onSquareClick(square)` makes. */
  function ClickSetters(o: Oracle, s: State, sq: Square): seq<Update>
  {
    [SetRightClickedSquares(map[])] +
    (if s.moveFrom == Some(sq) then
       [SetMoveFrom(None), SetOptionSquares(map[])]
     else if OwnPiece(o, s.game, sq) then
       Disarm(s) +
       (match GetMoveOptions(o, s.game, sq)
        case None => []
        case Some(options) => [SetOptionSquares(options), SetMoveFrom(Some(sq))])
     else if s.moveFrom.Some? then
       AttemptSetters(Attempt(o, s, sq))
     else
       [])
  }

  /** The setter calls made after asking a copy of the game, loaded from its
      FEN string, to play the move with queen promotion. */
  function AttemptSetters(result: MoveResult): seq<Update>
  {
    match result
    case Moved(after) => [SetGame(after), SetMoveFrom(None), SetOptionSquares(map[])]
    case Falsy => []
    case Threw => [SetMoveFrom(None), SetOptionSquares(map[])]
  }

  function OnSquareClick(o: Oracle, s: State, sq: Square): State
  {
    Commit(s, ClickSetters(o, s, sq))
  }

  /** The outcome of the engine's move call for a click on `sq` with an armed
      origin: always from that origin, always asking for a queen. */
  function Attempt(o: Oracle, s: State, sq: Square): MoveResult
    requires s.moveFrom.Some?
  {
    o.move(o.load(o.fen(s.game)), s.moveFrom.value, sq, Queen)
  }

  /** Clicking the armed square disarms it and drops its highlights, before
      any piece is looked up; the position stays. */
  lemma ClickArmedSquare(o: Oracle, s: State, sq: Square)
    requires s.moveFrom == Some(sq)
    ensures OnSquareClick(o, s, sq) ==
      s.(moveFrom := None, optionSquares := map[], rightClickedSquares := map[])
  {
    CommitCons(s, SetRightClickedSquares(map[]), [SetMoveFrom(None), SetOptionSquares(map[])]);
    CommitPair(s.(rightClickedSquares := map[]), SetMoveFrom(None), SetOptionSquares(map[]));
  }

  /** Clicking a piece of the side to move that has moves arms it, whatever
      was armed before, and shows its highlights only. */
  lemma ClickOwnPieceWithMoves(o: Oracle, s: State, sq: Square)
    requires s.moveFrom != Some(sq) && Armable(o, s.game, sq)
    ensures OnSquareClick(o, s, sq) ==
      s.(moveFrom := Some(sq), optionSquares := GetMoveOptions(o, s.game, sq).value,
         rightClickedSquares := map[])
  {
    var options := GetMoveOptions(o, s.game, sq).value;
    var reset := Disarm(s);
    var arm := [SetOptionSquares(options), SetMoveFrom(Some(sq))];
    assert ClickSetters(o, s, sq) == [SetRightClickedSquares(map[])] + (reset + arm);
    var cleared := s.(rightClickedSquares := map[]);
    CommitCons(s, SetRightClickedSquares(map[]), reset + arm);
    CommitAppend(cleared, reset, arm);
    if s.moveFrom.Some? {
      CommitPair(cleared, SetMoveFrom(None), SetOptionSquares(map[]));
    }
    CommitPair(Commit(cleared, reset), SetOptionSquares(options), SetMoveFrom(Some(sq)));
  }

  /** The calls that drop an armed square before a piece is (re)armed. */
  function Disarm(s: State): seq<Update>
  {
    if s.moveFrom.Some? then [SetMoveFrom(None), SetOptionSquares(map[])] else []
  }

  /** Clicking a piece of the side to move that has no moves never arms it:
      an armed square is disarmed, and with nothing armed nothing but the
      marks changes. */
  lemma ClickOwnPieceWithoutMoves(o: Oracle, s: State, sq: Square)
    requires s.moveFrom != Some(sq) && OwnPiece(o, s.game, sq) && |o.moves(s.game, sq)| == 0
    ensures s.moveFrom.Some? ==>
      OnSquareClick(o, s, sq) == s.(moveFrom := None, optionSquares := map[], rightClickedSquares := map[])
    ensures s.moveFrom.None? ==> OnSquareClick(o, s, sq) == s.(rightClickedSquares := map[])
  {
    var reset := Disarm(s);
    assert ClickSetters(o, s, sq) == [SetRightClickedSquares(map[])] + reset;
    var cleared := s.(rightClickedSquares := map[]);
    CommitCons(s, SetRightClickedSquares(map[]), reset);
    if s.moveFrom.Some? {
      CommitPair(cleared, SetMoveFrom(None), SetOptionSquares(map[]));
    }
  }

  /** Clicking anything but a piece of the side to move with a different
      square armed is a move attempt. A move played replaces the position by
      the copy's and disarms; a thrown error disarms and keeps the position;
      a falsy answer changes nothing but the marks. */
  lemma ClickMoveAttempt(o: Oracle, s: State, sq: Square)
    requires s.moveFrom.Some? && s.moveFrom != Some(sq) && !OwnPiece(o, s.game, sq)
    ensures Attempt(o, s, sq).Moved? ==>
      OnSquareClick(o, s, sq) == s.(game := Attempt(o, s, sq).after, moveFrom := None,
                                    optionSquares := map[], rightClickedSquares := map[])
    ensures Attempt(o, s, sq).Threw? ==>
      OnSquareClick(o, s, sq) == s.(moveFrom := None, optionSquares := map[], rightClickedSquares := map[])
    ensures Attempt(o, s, sq).Falsy? ==> OnSquareClick(o, s, sq) == s.(rightClickedSquares := map[])
  {
    var result := Attempt(o, s, sq);
    assert ClickSetters(o, s, sq) == [SetRightClickedSquares(map[])] + AttemptSetters(result);
    var cleared := s.(rightClickedSquares := map[]);
    CommitCons(s, SetRightClickedSquares(map[]), AttemptSetters(result));
    match result
    case Moved(after) =>
      CommitTriple(cleared, SetGame(after), SetMoveFrom(None), SetOptionSquares(map[]));
    case Threw =>
      CommitPair(cleared, SetMoveFrom(None), SetOptionSquares(map[]));
    case Falsy =>
  }

  /** With nothing armed, clicking an empty square or an enemy piece changes
      nothing but the marks. */
  lemma ClickIdleElsewhere(o: Oracle, s: State, sq: Square)
    requires s.moveFrom.None? && !OwnPiece(o, s.game, sq)
    ensures OnSquareClick(o, s, sq) == s.(rightClickedSquares := map[])
  {
    CommitCons(s, SetRightClickedSquares(map[]), []);
  }

  /** A left click wipes every right-click mark and touches neither the move
      squares nor the board width. */
  lemma ClickFrame(o: Oracle, s: State, sq: Square)
    ensures OnSquareClick(o, s, sq).rightClickedSquares == map[]
    ensures OnSquareClick(o, s, sq).moveSquares == s.moveSquares
    ensures OnSquareClick(o, s, sq).boardWidth == s.boardWidth
  {
    if s.moveFrom == Some(sq) {
      ClickArmedSquare(o, s, sq);
    } else if OwnPiece(o, s.game, sq) {
      if |o.moves(s.game, sq)| > 0 {
        ClickOwnPieceWithMoves(o, s, sq);
      } else {
        ClickOwnPieceWithoutMoves(o, s, sq);
      }
    } else if s.moveFrom.Some? {
      ClickMoveAttempt(o, s, sq);
    } else {
      ClickIdleElsewhere(o, s, sq);
    }
  }

  /** The arming rule: a click on a square other than the armed one leaves
      that square armed exactly when it holds a piece of the side to move
      with at least one move; otherwise the armed square is the old one or
      none. */
  lemma ArmingRule(o: Oracle, s: State, sq: Square)
    requires s.moveFrom != Some(sq)
    ensures OnSquareClick(o, s, sq).moveFrom == Some(sq) <==> Armable(o, s.game, sq)
    ensures !Armable(o, s.game, sq) ==>
      OnSquareClick(o, s, sq).moveFrom == None || OnSquareClick(o, s, sq).moveFrom == s.moveFrom
  {
    if OwnPiece(o, s.game, sq) {
      if |o.moves(s.game, sq)| > 0 {
        ClickOwnPieceWithMoves(o, s, sq);
      } else {
        ClickOwnPieceWithoutMoves(o, s, sq);
      }
    } else if s.moveFrom.Some? {
      ClickMoveAttempt(o, s, sq);
    } else {
      ClickIdleElsewhere(o, s, sq);
    }
  }

  /** A left click changes the position only by a move the engine played
      on the FEN copy from the armed square to the clicked one, promoting to
      a queen; and such a move is always taken. */
  lemma ClickPositionChange(o: Oracle, s: State, sq: Square)
    ensures OnSquareClick(o, s, sq).game != s.game ==>
      s.moveFrom.Some? && s.moveFrom != Some(sq) && !OwnPiece(o, s.game, sq) &&
      Attempt(o, s, sq) == Moved(OnSquareClick(o, s, sq).game)
    ensures (s.moveFrom.Some? && s.moveFrom != Some(sq) && !OwnPiece(o, s.game, sq) &&
             Attempt(o, s, sq).Moved?) ==>
      OnSquareClick(o, s, sq).game == Attempt(o, s, sq).after
  {
    if s.moveFrom == Some(sq) {
      ClickArmedSquare(o, s, sq);
    } else if OwnPiece(o, s.game, sq) {
      if |o.moves(s.game, sq)| > 0 {
        ClickOwnPieceWithMoves(o, s, sq);
      } else {
        ClickOwnPieceWithoutMoves(o, s, sq);
      }
    } else if s.moveFrom.Some? {
      ClickMoveAttempt(o, s, sq);
    } else {
      ClickIdleElsewhere(o, s, sq);
    }
  }

  /** Clicking a square that can be armed and then clicking it again ends
      with nothing armed, no highlights, no marks, and the same position. */
  lemma ClickTwiceDeselects(o: Oracle, s: State, sq: Square)
    requires s.moveFrom != Some(sq) && Armable(o, s.game, sq)
    ensures OnSquareClick(o, OnSquareClick(o, s, sq), sq) ==
      s.(moveFrom := None, optionSquares := map[], rightClickedSquares := map[])
  {
    ClickOwnPieceWithMoves(o, s, sq);
    ClickArmedSquare(o, OnSquareClick(o, s, sq), sq);
  }

  /** Every left click keeps the invariant. */
  lemma ClickPreservesInv(o: Oracle, s: State, sq: Square)
    requires Inv(o, s)
    ensures Inv(o, OnSquareClick(o, s, sq))
  {
    if s.moveFrom == Some(sq) {
      ClickArmedSquare(o, s, sq);
    } else if OwnPiece(o, s.game, sq) {
      if |o.moves(s.game, sq)| > 0 {
        ClickOwnPieceWithMoves(o, s, sq);
      } else {
        ClickOwnPieceWithoutMoves(o, s, sq);
      }
    } else if s.moveFrom.Some? {
      ClickMoveAttempt(o, s, sq);
    } else {
      ClickIdleElsewhere(o, s, sq);
    }
  }

  // --------------------------------------------------------------- right click

  /** The square carries the blue right-click mark. */
  predicate Marked(s: State, sq: Square)
  {
    sq in s.rightClickedSquares && s.rightClickedSquares[sq] == Some(Mark)
  }

  /** The setter call `onSquareRightClick(square)` makes: the old marks with
      the square's entry replaced, by `undefined` if it held the mark and by
      the mark otherwise. */
  function RightClickSetters(s: State, sq: Square): seq<Update>
  {
    [SetRightClickedSquares(s.rightClickedSquares[sq := if Marked(s, sq) then None else Some(Mark)])]
  }

  /** A right click flips the mark on its square alone: no other entry, no
      other piece of state changes. */
  function OnSquareRightClick(s: State, sq: Square): (r: State)
    ensures sq in r.rightClickedSquares
    ensures Marked(r, sq) <==> !Marked(s, sq)
    ensures !Marked(r, sq) ==> r.rightClickedSquares[sq] == None
    ensures forall t :: t != sq ==>
      (t in r.rightClickedSquares <==> t in s.rightClickedSquares) &&
      (t in s.rightClickedSquares ==> r.rightClickedSquares[t] == s.rightClickedSquares[t])
    ensures r.(rightClickedSquares := s.rightClickedSquares) == s
  {
    CommitSingle(s, RightClickSetters(s, sq)[0]);
    Commit(s, RightClickSetters(s, sq))
  }

  /** Two right clicks on a square give it back its marked status; a square
      that was not marked is left with an `undefined` entry. */
  lemma RightClickTwice(s: State, sq: Square)
    ensures Marked(OnSquareRightClick(OnSquareRightClick(s, sq), sq), sq) == Marked(s, sq)
    ensures !Marked(s, sq) ==>
      OnSquareRightClick(OnSquareRightClick(s, sq), sq).rightClickedSquares ==
      s.rightClickedSquares[sq := None]
  {
  }

  lemma RightClickPreservesInv(o: Oracle, s: State, sq: Square)
    requires Inv(o, s)
    ensures Inv(o, OnSquareRightClick(s, sq))
  {
  }

  // ------------------------------------------------------ restart and resizing

  /** The setter calls `restartGame()` makes. */
  function RestartSetters(o: Oracle): seq<Update>
  {
    [SetGame(o.initial), SetMoveFrom(None), SetRightClickedSquares(map[]),
     SetMoveSquares(map[]), SetOptionSquares(map[])]
  }

  /** Restarting gives the freshly mounted state back, the board width
      excepted, so the invariant holds again whatever came before. */
  function RestartGame(o: Oracle, s: State): (r: State)
    ensures r == Initial(o).(boardWidth := s.boardWidth)
    ensures Inv(o, r)
  {
    var first := [SetGame(o.initial), SetMoveFrom(None), SetRightClickedSquares(map[])];
    var second := [SetMoveSquares(map[]), SetOptionSquares(map[])];
    assert RestartSetters(o) == first + second;
    CommitAppend(s, first, second);
    CommitTriple(s, first[0], first[1], first[2]);
    CommitPair(Commit(s, first), second[0], second[1]);
    Commit(s, RestartSetters(o))
  }

  /** The resize handler (when the board is mounted): only the width
      changes, to the size the viewport allows. */
  function HandleResize(s: State, width: int, height: int): (r: State)
    ensures r.boardWidth <= 480 && r.boardWidth <= width - 40 && r.boardWidth <= height - 200
    ensures r.boardWidth == BoardSize(width, height)
    ensures r.(boardWidth := s.boardWidth) == s
  {
    CommitSingle(s, SetBoardWidth(BoardSize(width, height)));
    Commit(s, [SetBoardWidth(BoardSize(width, height))])
  }

  // ------------------------------------------------------------ event sequences

  /** The events the widget and the window deliver, one at a time. */
  datatype Event =
    | LeftClick(square: Square)
    | RightClick(square: Square)
    | Restart
    | Resize(width: int, height: int)

  function Step(o: Oracle, s: State, e: Event): State
  {
    match e
    case LeftClick(sq) => OnSquareClick(o, s, sq)
    case RightClick(sq) => OnSquareRightClick(s, sq)
    case Restart => RestartGame(o, s)
    case Resize(w, h) => HandleResize(s, w, h)
  }

  function Run(o: Oracle, s: State, es: seq<Event>): State
    decreases |es|
  {
    if |es| == 0 then s else Run(o, Step(o, s, es[0]), es[1..])
  }

  lemma StepPreservesInv(o: Oracle, s: State, e: Event)
    requires Inv(o, s)
    ensures Inv(o, Step(o, s, e))
  {
    match e
    case LeftClick(sq) => ClickPreservesInv(o, s, sq);
    case RightClick(sq) => RightClickPreservesInv(o, s, sq);
    case Restart =>
    case Resize(w, h) =>
  }

  /** From the mounted state, after any sequence of events, the invariant
      holds: nothing is highlighted unless a square is armed, and an armed
      square is a piece of the side to move shown in the origin style among
      exactly its own destinations. */
  lemma {:induction false} RunPreservesInv(o: Oracle, s: State, es: seq<Event>)
    requires Inv(o, s)
    ensures Inv(o, Run(o, s, es))
    decreases |es|
  {
    if |es| != 0 {
      StepPreservesInv(o, s, es[0]);
      RunPreservesInv(o, Step(o, s, es[0]), es[1..]);
    }
  }

  // ------------------------------------------------------------ the overlay

  /** The per-square styles handed to the board. */
  function SquareStyles(s: State): map<Square, Option<Style>>
  {
    CustomSquareStyles(s.moveSquares, s.optionSquares, s.rightClickedSquares)
  }

  /** Right after a left click the board shows the highlights and nothing
      else, the armed square in the origin style. */
  lemma StylesAfterClick(o: Oracle, s: State, sq: Square)
    requires Inv(o, s)
    ensures SquareStyles(OnSquareClick(o, s, sq)) == Defined(OnSquareClick(o, s, sq).optionSquares)
    ensures OnSquareClick(o, s, sq).moveFrom.Some? ==>
      var a := OnSquareClick(o, s, sq).moveFrom.value;
      a in SquareStyles(OnSquareClick(o, s, sq)) && SquareStyles(OnSquareClick(o, s, sq))[a] == Some(Origin)
  {
    var r := OnSquareClick(o, s, sq);
    ClickPreservesInv(o, s, sq);
    ClickFrame(o, s, sq);
    assert SquareStyles(r) == Defined(r.optionSquares);
  }
}
