# Snake, first version: a verified model of the game state machine

This project models the game logic of `snake.js`, the first version of a
browser Snake game on a 400 × 400 pixel canvas divided into 20-pixel grid
cells. The whole game state is five mutable globals: the snake body (head
first), the food cell, the heading, the one-change-per-tick flag
`changingDirection` and the score. A timer calls the game loop every 100 ms.
Each call first checks for game over, then clears the flag, then moves the
snake. A key press may change the heading, at most once per tick.

Module `Snake` (`snake.dfy`) holds the model.

- The globals become the fields of class `Game`. The body, which the source
  changes in place with `unshift` and `pop`, is a `seq<Cell>` field that the
  methods reassign.
- `moveSnake`, `changeDirection`, `generateFood` and the update part of
  `gameLoop` become the methods `MoveSnake`, `ChangeDirection`, `GenerateFood`
  and `Tick`. The starting values become the constructor.
- The `for` loop of `gameOver` becomes the read-only method `GameOver`. It is
  proved equal to the predicate `Crashed`: the head is off the canvas, or the
  head sits on another segment.
- Pure functions give each method its meaning:
  - `Step` is the head's move.
  - `Turn` is the key-code cascade.
  - `Advance` is the new body.
  - `FoodCell` is the food position for two sampled grid indices.

`Valid()` is the class invariant, and every method keeps it. It says:

- the body is never empty;
- every segment lies on the 20-pixel grid;
- each segment is next to the one in front of it;
- the food is on the board;
- the score is exactly 10 × (length − 1);
- the head is one step from the segment behind it, in the heading of the last
  move (a ghost field);
- the heading is never the reverse of the last move;
- while the one-change flag is clear, the heading equals the last move.

From the invariant the model proves a consequence of reversal rejection plus
the one-change-per-tick flag: the next move never takes the head back onto the
segment behind it (`Game.NextMoveMissesNeck`).

Two client methods replay concrete scenarios:

- `FirstTickScenario`: from the start, one tick moves the head from (160,160)
  to (180,160), and the length stays 1.
- `WallScenario`: a snake at (0,0),(20,0),(40,0) heading LEFT moves to
  (-20,0), and the next tick reports game over.

A third, `DebounceScenario`, shows that only the first key press in a tick
counts, even when that press is then ignored.

Three facts about `snake.js` shape the model:

- Coordinates are pixels, always multiples of the 20-pixel grid (snake.js:5-13).
- Food is placed with no check against the snake (snake.js:106-110).
  `FoodCellCoversBoard` proves that every board cell can be chosen, cells
  under the snake included.
- Game over is checked on the state before the move (snake.js:23-26). A head
  that has just left the canvas stays in the state until the next tick
  reports it.

## Model

| member | source | states |
|---|---|---|
| Snake.Game.constructor | snake.js:10-16 | Starts with one segment at (8·20, 8·20), food at (5·20, 5·20), heading RIGHT, flag clear, score 0, and the class invariant holding |
| Snake.Crashed | snake.js:37-51 | Game over holds exactly when the head is off the canvas or some segment at index ≥ 1 equals the head. A one-segment snake can only end the game by leaving the canvas |
| Snake.Game.GameOver | snake.js:37-51 | Reads only. The result is true exactly when the head is outside [0, 400) on either axis or equals a segment at index ≥ 1. The bounds test runs before the body scan |
| Snake.Game.ChangeDirection | snake.js:55-69 | If the flag was already set, nothing changes. Otherwise the flag is set and the heading becomes `Turn(old heading, key)`, so an ignored key still uses up the tick's change. Body, food and score are untouched |
| Snake.Turn | snake.js:59-68 | The new heading is the old one or the one the arrow key asks for. It is never the reverse of the old heading. An arrow key that does not ask for a reversal always takes effect |
| Snake.KeyDirection | snake.js:59-67 | Exactly key codes 37 to 40 name a heading (LEFT, UP, RIGHT, DOWN) |
| Snake.Opposite | snake.js:60-67 | The reverse heading used by the reversal tests differs from the heading itself |
| Snake.TurnIgnores | snake.js:60-68 | A key that is not an arrow, or an arrow asking for the reverse heading, leaves the heading unchanged |
| Snake.TwoTurnsReverse | snake.js:56-57 | From every heading, some two accepted presses in a row end on the reverse heading, which is why the one-change flag allows only one per tick |
| Snake.OneTurnMissesNeck | snake.js:60-68 | After a move heading `moved`, one turn by any key never steps the head back onto the cell it came from |
| Snake.Game.NextMoveMissesNeck | snake.js:25 | With the class invariant, which the flag cleared at each tick and the reversal tests maintain, the next move never puts the head on the segment behind it |
| Snake.Step | snake.js:73-78 | The new head is one grid cell (20 px) from the old head along the heading's axis (LEFT −x, RIGHT +x, UP −y, DOWN +y), and the other coordinate is unchanged |
| Snake.StepUndone | snake.js:75-78 | A step followed by a step in the opposite heading returns to the starting cell |
| Snake.StepKeepsAligned | snake.js:75-78 | A step keeps both coordinates multiples of 20 |
| Snake.Eats | snake.js:83 | The food test succeeds only when the food is on a cell next to the current head |
| Snake.Advance | snake.js:80-87 | The new body starts with the new head, and every old segment moves one place back. The length grows by 1 exactly when the new head is on the food; otherwise the old tail is dropped and the length is unchanged |
| Snake.AdvanceKeepsShape | snake.js:72-88 | A move keeps the body non-empty, on the 20-pixel grid and connected (each segment adjacent to the next) |
| Snake.FoodCell | snake.js:106-111 | For grid indices in [0, 20), the food cell lies on the canvas, is aligned to the grid, and gives back its indices when divided by 20 |
| Snake.FoodCellCoversBoard | snake.js:106-110 | Every aligned cell on the canvas can be chosen as food. Nothing excludes the cells under the snake |
| Snake.Game.GenerateFood | snake.js:106-111 | The food becomes the cell at the sampled grid indices. No other field changes |
| Snake.Game.MoveSnake | snake.js:72-89 | The body becomes `Advance(old body, heading, food)`. On the food, the score rises by exactly 10 and new food is placed. Otherwise score and food are unchanged. The heading and the flag are untouched |
| Snake.Game.Tick | snake.js:22-34 | If the pre-move state is game over, nothing changes and the tick reports it. Otherwise the flag is cleared and the snake moves as in `MoveSnake`. The invariant is kept |

## Left out

- Drawing is rendering output and is not modelled: `clearCanvas`, `drawSnake`, `drawFood`, `drawScore` and the canvas and context lookups.
- The `alert` and `document.location.reload()` in `gameOver` are browser side effects. `Snake.Game.Tick` reports game over and leaves the state unchanged. It does not model the page reload, which would restart the game from the initial state.
- The `setTimeout(gameLoop, 100)` rescheduling and the first `gameLoop()` call are timer scheduling. One call of `Tick` stands for one timer firing.
- The `keydown` listener wiring is event transport. `ChangeDirection` takes the key code as an integer.
- `Math.random()` is left out. The two sampled grid indices are parameters of `GenerateFood`, `MoveSnake` and `Tick`, and their range [0, 20) is what `Math.floor(Math.random() * gridCount)` yields.
- `checkFoodCollision()` is called by the game loop but is not defined in `snake.js`. It is not part of this model. If it is not defined anywhere on the page, the call would throw after the first move and stop the loop. The model assumes the loop goes on.
- Coordinates are JavaScript numbers. All values reached here are small integers, so the model uses unbounded `int`.
- The heading is a string in the source. Only the four values LEFT, UP, RIGHT and DOWN are ever assigned, so the model uses an enumeration.
- Obstacles, power-ups, invincibility, the score-dependent speed, the death explosion, the high score, restart and food placement that avoids the snake all belong to later versions of the game. None of them is in `snake.js`, and none is modelled.
