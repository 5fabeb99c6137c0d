# Chess game click controller — a Dafny model

This project models the one piece of logic the chess game's `ChessGame` React
component owns itself. That piece is the click-handling state machine in `src/App.js`. A left
click can arm a square of the side to move, disarm it, or ask the rules engine
to play a move from the armed square. A right click toggles a blue mark. A
restart returns to the starting position. The project also models the pure
helpers the component hands to the board widget:

- the move highlights (`getMoveOptions`);
- the merged per-square style object (`customSquareStyles`);
- the board width computed on resize;
- the status line.

The chess rules belong to the chess.js engine, which is not part of this model.
Every engine query the component makes is a field of an `Oracle` value. These
queries are `get`, `turn`, `moves`, `fen`, `new Chess(fen)`, `move`,
`isCheckmate` and `isDraw`. Each field is an arbitrary total function over an
abstract `Position` type. So every property below holds whatever the engine
computes. The engine's `move` call has three outcomes: it returns a move (and the
position advances), it returns a falsy value, or it throws.

React state setters are queued and applied in call order when the handler
finishes, so the last write to a piece of state wins. Each handler is therefore
written as the sequence of setter calls it makes, in source order
(`ClickSetters`, `RightClickSetters`, `RestartSetters`). Its effect is that
sequence committed to the state (`Commit`). The lemmas then state, branch by
branch, which state the handler leaves behind.

Files:

- `chess.dfy` (module `Chess`): squares, pieces, colours, the oracle.
- `board.dfy` (module `Board`): styles, `GetMoveOptions`, the merged overlay, the board size, the game status.
- `game.dfy` (module `ChessGame`): the state record, setter calls and `Commit`, the handlers, the invariant, event sequences.

The model follows the code in these places, which are easy to misread:

- every left click wipes all right-click marks, including the click that plays a move;
- a piece of the side to move with no legal moves is never armed;
- a falsy answer from `move` leaves the armed square and its highlights in place, and only a thrown error disarms;
- a destination gets the capture style when it holds a piece of the other colour, not when the move captures, so an en-passant destination gets the quiet style;
- the board width is not clamped at zero.

## Model

| member | source | states |
|---|---|---|
| `Board.DestinationStyle` | src/App.js:41-47 | A destination gets the capture style exactly when it is occupied by a piece whose colour differs from the moving piece's colour, and the quiet style otherwise. |
| `Board.PaintDestinations` | src/App.js:39-50 | The loop over the verbose moves yields a map whose keys are exactly the earlier keys plus every destination listed. Each destination carries its own style, and keys not listed keep their values. A repeated (promotion) destination is harmless. |
| `Board.GetMoveOptions` | src/App.js:30-56 | No highlights (`false`) exactly when the engine lists no move. Otherwise the keys are exactly the destinations plus the origin. The origin has the origin style even if it is also a destination. A destination other than the origin has the capture style iff it holds a piece of a different colour from the origin's piece, and the quiet style otherwise. |
| `Board.CustomSquareStyles` | src/App.js:134-138 | The merged overlay's keys are the union of the three maps. A right-click entry wins over everything, even when it is `undefined`. An option style wins over a move-square style. |
| `Board.BoardSize` | src/App.js:19 | The width is at most 480, at most the viewport width less 40, at most the viewport height less 200, and equal to one of the three. It is negative exactly when the viewport is narrower than 40 or lower than 200. |
| `Board.GameStatus` | src/App.js:143-154 | Checkmate exactly when the engine reports it, and the winner is not the side to move. Draw exactly when there is no checkmate and the engine reports a draw. Ongoing otherwise. |
| `ChessGame.CommitAppend` | src/App.js:69-75 | Committing two batches of setter calls one after the other equals committing them as one batch, so a later setter call overrides an earlier one. |
| `ChessGame.Initial` | src/App.js:6-11 | The state of the first render satisfies the controller invariant. |
| `ChessGame.Mount` | src/App.js:14-28 | Mounting runs the resize handler once on the first-render state: the result satisfies the invariant, its width is the size the viewport allows, and nothing else differs from the first-render state. |
| `ChessGame.InvHighlights` | src/App.js:51-75 | Under the invariant: nothing is highlighted while nothing is armed. An armed square holds a piece of the side to move and is highlighted with the origin style. |
| `ChessGame.ClickArmedSquare` | src/App.js:58-65 | Clicking the armed square disarms it, empties the highlights and wipes the marks. It does this before any piece lookup, and the position is unchanged. |
| `ChessGame.ClickOwnPieceWithMoves` | src/App.js:67-77 | Clicking a piece of the side to move that has moves arms that square, whatever was armed before. The highlights become that square's own highlights, the marks are wiped, and the position is unchanged. |
| `ChessGame.ClickOwnPieceWithoutMoves` | src/App.js:67-77 | Clicking a piece of the side to move that has no moves never arms it. A previously armed square is disarmed and its highlights dropped. With nothing armed, only the marks change. |
| `ChessGame.ClickMoveAttempt` | src/App.js:79-96 | With another square armed and a click on anything but a piece of the side to move, there are three outcomes. A played move makes the copy's resulting position the game and disarms. A thrown error disarms and keeps the position. A falsy return changes nothing but the marks. |
| `ChessGame.ClickIdleElsewhere` | src/App.js:58-97 | With nothing armed, clicking an empty square or an enemy piece changes nothing but the marks. |
| `ChessGame.ClickFrame` | src/App.js:59 | Every left click empties the right-click marks and keeps the move squares and the board width. |
| `ChessGame.ArmingRule` | src/App.js:67-96 | For a click on a square other than the armed one, that square ends up armed exactly when it holds a piece of the side to move with at least one move. Otherwise the armed square is the old one or none. |
| `ChessGame.ClickPositionChange` | src/App.js:79-96 | The position changes only when the engine plays the move from the armed square to the clicked one, with queen promotion, on the copy loaded from the FEN string. Such a move always replaces the position. |
| `ChessGame.ClickTwiceDeselects` | src/App.js:61-77 | Arming a square and clicking it again leaves nothing armed, no highlights, no marks and the same position. |
| `ChessGame.ClickPreservesInv` | src/App.js:58-97 | A left click keeps the invariant: no move squares, marks are blue or undefined, no highlights while disarmed, and an armed square is armable with exactly its own highlights. |
| `ChessGame.OnSquareRightClick` | src/App.js:99-109 | A right click flips the mark on its square between marked and `undefined`. No other square's entry and no other piece of state changes. |
| `ChessGame.RightClickTwice` | src/App.js:99-109 | Two right clicks restore the square's marked status. An unmarked square keeps an `undefined` entry. |
| `ChessGame.RightClickPreservesInv` | src/App.js:99-109 | A right click keeps the invariant. |
| `ChessGame.RestartGame` | src/App.js:111-117 | A restart yields the freshly mounted state except for the board width, so the invariant holds again. |
| `ChessGame.HandleResize` | src/App.js:14-22 | A resize changes only the board width, setting it to the size the viewport allows, which is at most 480. |
| `ChessGame.StepPreservesInv` | src/App.js:58-117 | Every event (left click, right click, restart, resize) keeps the invariant. |
| `ChessGame.RunPreservesInv` | src/App.js:6-117 | After any sequence of events from a state satisfying the invariant, the invariant still holds. |
| `ChessGame.StylesAfterClick` | src/App.js:134-138 | Right after a left click, the board's styles are exactly the highlights, with the armed square in the origin style. |

## Left out

- Chess rules: legal move generation, move legality, FEN, checkmate and draw detection belong to chess.js. They are the uninterpreted fields of `Oracle`.
- The FEN copy: `new Chess(game.fen())` is modelled as `load(fen(game))`. Whatever that copy forgets, such as the move history used for repetition draws, is the engine's business.
- Rendering through react-chessboard and the page markup: the CSS objects become the four values of `Style`, and the "Turn:" label (src/App.js:147) is not modelled.
- React's hook machinery: `useState`, `useRef`, and the `useEffect` registration and removal of the resize listener are left out. The effect's one call of the handler at mount time is kept, as `Mount`. Each event is assumed to see the state committed by the previous one.
- The browser: the window dimensions become parameters of `HandleResize`. The `chessboardRef.current` guard is not modelled; `HandleResize` is the guarded branch.
- Board.GetMoveOptions: requires the clicked square to hold a piece. With an empty origin and an occupied destination, the code would throw reading the origin's colour. Its only caller passes a piece of the side to move.
- Properties that depend on what the engine computes, such as the position after 1.e4 or Fool's Mate ending in checkmate, are outside the model because the engine is uninterpreted.
