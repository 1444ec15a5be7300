/**
 A model of the first version of a grid Snake game played on a square canvas.
 The game state lives in one object (`Game`); each timer tick checks for game
 over, re-arms the one-change-per-tick direction flag and moves the snake one
 grid cell. Coordinates are pixels and always multiples of the grid size.
 */
module Snake {

  // Game settings

  const GridSize: int := 20
  const CanvasSize: int := 400
  const GridCount: int := CanvasSize / GridSize

  // Score awarded for each piece of food eaten
  const FoodScore: int := 10

  // Key codes of the four arrow keys
  const KeyLeft: int := 37
  const KeyUp: int := 38
  const KeyRight: int := 39
  const KeyDown: int := 40

  datatype Option<T> = None | Some(value: T)

  /** A position on the canvas, in pixels */
  datatype Cell = Cell(x: int, y: int)

  /** The snake's heading */
  datatype Direction = Left | Up | Right | Down

  /** Both coordinates are multiples of the grid size */
  predicate Aligned(c: Cell) {
    c.x % GridSize == 0 && c.y % GridSize == 0
  }

  /** The cell lies on the canvas: both coordinates in [0, CanvasSize) */
  predicate OnBoard(c: Cell) {
    0 <= c.x < CanvasSize && 0 <= c.y < CanvasSize
  }

  /** `a` and `b` are neighbouring grid cells: one grid step apart along one axis */
  predicate Adjacent(a: Cell, b: Cell) {
    || (a.y == b.y && (a.x - b.x == GridSize || b.x - a.x == GridSize))
    || (a.x == b.x && (a.y - b.y == GridSize || b.y - a.y == GridSize))
  }

  predicate AllAligned(body: seq<Cell>) {
    forall i :: 0 <= i < |body| ==> Aligned(body[i])
  }

  /** Each segment sits next to the segment in front of it */
  predicate Connected(body: seq<Cell>) {
    forall i :: 0 <= i < |body| - 1 ==> Adjacent(body[i], body[i + 1])
  }

  /** The shape every snake body keeps: never empty, on the grid, in one piece */
  predicate WellFormed(body: seq<Cell>) {
    |body| >= 1 && AllAligned(body) && Connected(body)
  }

  function Opposite(d: Direction): (r: Direction)
    ensures r != d
  {
    match d
    case Left => Right
    case Right => Left
    case Up => Down
    case Down => Up
  }

  /** The heading an arrow key asks for; None for every other key */
  function KeyDirection(key: int): (r: Option<Direction>)
    ensures r.Some? <==> KeyLeft <= key <= KeyDown
  {
    if key == KeyLeft then Some(Left)
    else if key == KeyUp then Some(Up)
    else if key == KeyRight then Some(Right)
    else if key == KeyDown then Some(Down)
    else None
  }

  /** The cell one grid step away from `c` in direction `d`: the new head of moveSnake */
  function Step(c: Cell, d: Direction): (r: Cell)
    ensures Adjacent(r, c)
    ensures (d == Left || d == Right) ==> r.y == c.y
    ensures (d == Up || d == Down) ==> r.x == c.x
    ensures d == Left ==> r.x < c.x
    ensures d == Right ==> r.x > c.x
    ensures d == Up ==> r.y < c.y
    ensures d == Down ==> r.y > c.y
  {
    match d
    case Left => Cell(c.x - GridSize, c.y)
    case Right => Cell(c.x + GridSize, c.y)
    case Up => Cell(c.x, c.y - GridSize)
    case Down => Cell(c.x, c.y + GridSize)
  }

  /** Stepping back the opposite way undoes a step */
  lemma StepUndone(c: Cell, d: Direction)
    ensures Step(Step(c, d), Opposite(d)) == c
  {
  }

  /** A step keeps a cell on the grid */
  lemma StepKeepsAligned(c: Cell, d: Direction)
    requires Aligned(c)
    ensures Aligned(Step(c, d))
  {
  }

  /**
   The heading after the arrow key `key` is handled while heading `heading`:
   arrow keys turn the snake unless they ask for the reverse of the current
   heading; every other key, and every reversal, is ignored.
   */
  function Turn(heading: Direction, key: int): (r: Direction)
    ensures r == heading || KeyDirection(key) == Some(r)
    ensures r != Opposite(heading)
    ensures KeyDirection(key).Some? && KeyDirection(key).value != Opposite(heading) ==>
              r == KeyDirection(key).value
  {
    if key == KeyLeft && heading != Right then Left
    else if key == KeyUp && heading != Down then Up
    else if key == KeyRight && heading != Left then Right
    else if key == KeyDown && heading != Up then Down
    else heading
  }

  /** A reversal key and a key that is not an arrow both leave the heading as it is */
  lemma TurnIgnores(heading: Direction, key: int)
    requires KeyDirection(key) == None || KeyDirection(key) == Some(Opposite(heading))
    ensures Turn(heading, key) == heading
  {
  }

  /**
   From every heading, two accepted turns in a row can reverse the snake: a
   key at right angles, then the key for the reverse of the first heading.
   This is why only one change may take effect per tick.
   */
  lemma TwoTurnsReverse(heading: Direction)
    ensures exists first, second :: Turn(Turn(heading, first), second) == Opposite(heading)
  {
    var keys := match heading
      case Left => (KeyUp, KeyRight)
      case Right => (KeyUp, KeyLeft)
      case Up => (KeyLeft, KeyDown)
      case Down => (KeyLeft, KeyUp);
    assert Turn(Turn(heading, keys.0), keys.1) == Opposite(heading);
  }

  /**
   One turn never sends the head back onto the segment it just left: if the
   head was reached from `neck` by heading `moved`, the next step after any
   single key press lands elsewhere.
   */
  lemma OneTurnMissesNeck(neck: Cell, moved: Direction, key: int)
    ensures Step(Step(neck, moved), Turn(moved, key)) != neck
  {
  }

  /** Whether the new head after one move heading `d` lands on `food`; only food next to the head can be eaten */
  predicate Eats(body: seq<Cell>, d: Direction, food: Cell)
    requires |body| >= 1
    ensures Eats(body, d, food) ==> Adjacent(food, body[0])
  {
    Step(body[0], d) == food
  }

  /**
   The body after one move: the new head in front, every old segment shifted
   one place back, and the old tail dropped unless the head reached the food.
   */
  function Advance(body: seq<Cell>, d: Direction, food: Cell): (r: seq<Cell>)
    requires |body| >= 1
    ensures |r| == if Eats(body, d, food) then |body| + 1 else |body|
    ensures r[0] == Step(body[0], d)
    ensures forall i :: 1 <= i < |r| ==> r[i] == body[i - 1]
  {
    var head := Step(body[0], d);
    var grown := [head] + body;
    if head != food then grown[..|grown| - 1] else grown
  }

  /** A move keeps the snake never empty, on the grid and in one piece */
  lemma AdvanceKeepsShape(body: seq<Cell>, d: Direction, food: Cell)
    requires WellFormed(body)
    ensures WellFormed(Advance(body, d, food))
  {
  }

  /** The food cell for the sampled grid indices `i` and `j` (generateFood) */
  function FoodCell(i: int, j: int): (r: Cell)
    requires 0 <= i < GridCount && 0 <= j < GridCount
    ensures OnBoard(r) && Aligned(r)
    ensures r.x / GridSize == i && r.y / GridSize == j
  {
    Cell(i * GridSize, j * GridSize)
  }

  /**
   Every aligned cell on the board can be chosen as food, cells under the snake
   included: food placement does not avoid the snake.
   */
  lemma FoodCellCoversBoard(c: Cell)
    requires OnBoard(c) && Aligned(c)
    ensures exists i, j :: 0 <= i < GridCount && 0 <= j < GridCount && FoodCell(i, j) == c
  {
    var i, j := c.x / GridSize, c.y / GridSize;
    assert FoodCell(i, j) == c;
  }

  /** The game is over: the head is off the canvas or on another segment */
  predicate Crashed(body: seq<Cell>)
    requires |body| >= 1
    ensures Crashed(body) <==> !OnBoard(body[0]) || exists i :: 1 <= i < |body| && body[i] == body[0]
    ensures |body| == 1 ==> (Crashed(body) <==> !OnBoard(body[0]))
  {
    !OnBoard(body[0]) || body[0] in body[1..]
  }

  class Game {
    var snake: seq<Cell>
    var food: Cell
    var direction: Direction
    var changingDirection: bool
    var score: int
    // The heading of the last move (the initial heading before the first move)
    ghost var lastMove: Direction

    /** What holds of the board at every point of a tick */
    ghost predicate Consistent()
      reads this
    {
      && WellFormed(snake)
      && OnBoard(food) && Aligned(food)
      && score == FoodScore * (|snake| - 1)
      && (|snake| > 1 ==> snake[0] == Step(snake[1], lastMove))
      && direction != Opposite(lastMove)
    }

    /** What holds between calls: while no change was taken, the heading is the last move's */
    ghost predicate Valid()
      reads this
    {
      Consistent() && (!changingDirection ==> direction == lastMove)
    }

    /** The starting position: one segment at grid (8, 8), food at grid (5, 5), heading RIGHT */
    constructor ()
      ensures Valid()
      ensures snake == [Cell(8 * GridSize, 8 * GridSize)]
      ensures food == Cell(5 * GridSize, 5 * GridSize)
      ensures direction == Right && !changingDirection && score == 0
    {
      snake := [Cell(8 * GridSize, 8 * GridSize)];
      food := Cell(5 * GridSize, 5 * GridSize);
      direction := Right;
      changingDirection := false;
      score := 0;
      lastMove := Right;
    }

    /** Whether the game is over; the bounds test comes before the scan of the body */
    method GameOver() returns (over: bool)
      requires Valid()
      ensures over == Crashed(snake)
    {
      var head := snake[0];
      if head.x < 0 || head.x >= CanvasSize || head.y < 0 || head.y >= CanvasSize {
        return true;
      }
      var i := 1;
      while i < |snake|
        invariant 1 <= i <= |snake|
        invariant forall k :: 1 <= k < i ==> snake[k] != head
      {
        if snake[i] == head {
          return true;
        }
        i := i + 1;
      }
      return false;
    }

    /**
     Handles a key press. Only the first press after a tick is looked at; it
     uses up the tick's change even when the key is then ignored.
     */
    method ChangeDirection(key: int)
      requires Valid()
      modifies this
      ensures Valid()
      ensures changingDirection
      ensures direction == if old(changingDirection) then old(direction) else Turn(old(direction), key)
      ensures snake == old(snake) && food == old(food) && score == old(score)
      ensures lastMove == old(lastMove)
    {
      if changingDirection {
        return;
      }
      changingDirection := true;
      direction := Turn(direction, key);
    }

    /** Places the food at the sampled grid indices `i` and `j` */
    method GenerateFood(i: int, j: int)
      requires 0 <= i < GridCount && 0 <= j < GridCount
      modifies this`food
      ensures food == FoodCell(i, j)
    {
      food := Cell(i * GridSize, j * GridSize);
    }

    /**
     Moves the snake one cell along its heading. On reaching the food the snake
     keeps its tail, scores and gets new food at grid (i, j); otherwise the tail
     is dropped.
     */
    method MoveSnake(i: int, j: int)
      requires Consistent()
      requires 0 <= i < GridCount && 0 <= j < GridCount
      modifies this
      ensures Valid()
      ensures snake == Advance(old(snake), old(direction), old(food))
      ensures Eats(old(snake), old(direction), old(food)) ==>
                score == old(score) + FoodScore && food == FoodCell(i, j)
      ensures !Eats(old(snake), old(direction), old(food)) ==>
                score == old(score) && food == old(food)
      ensures direction == old(direction) && changingDirection == old(changingDirection)
      ensures lastMove == old(direction)
    {
      var head := Step(snake[0], direction);
      snake := [head] + snake;
      if head != food {
        snake := snake[..|snake| - 1];
      } else {
        score := score + FoodScore;
        GenerateFood(i, j);
      }
      AdvanceKeepsShape(old(snake), direction, old(food));
      lastMove := direction;
    }

    /**
     One tick of the game loop: stop if the game is over, otherwise re-arm the
     direction change and move. `i` and `j` are the grid indices food would be
     placed at if it is eaten.
     */
    method Tick(i: int, j: int) returns (over: bool)
      requires Valid()
      requires 0 <= i < GridCount && 0 <= j < GridCount
      modifies this
      ensures Valid()
      ensures over == Crashed(old(snake))
      ensures over ==> unchanged(this)
      ensures !over ==> && !changingDirection
                        && direction == old(direction)
                        && snake == Advance(old(snake), old(direction), old(food))
                        && score == old(score) + (if Eats(old(snake), old(direction), old(food)) then FoodScore else 0)
                        && food == (if Eats(old(snake), old(direction), old(food)) then FoodCell(i, j) else old(food))
    {
      over := GameOver();
      if over {
        return;
      }
      changingDirection := false;
      MoveSnake(i, j);
    }

    /** The next move never takes the head back onto the segment behind it */
    lemma NextMoveMissesNeck()
      requires Valid() && |snake| > 1
      ensures Step(snake[0], direction) != snake[1]
    {
    }
  }

  /** From the start, one tick with no key press moves the head one cell right */
  method FirstTickScenario(i: int, j: int)
    requires 0 <= i < GridCount && 0 <= j < GridCount
  {
    var g := new Game();
    var over := g.Tick(i, j);
    assert !over;
    assert g.snake == [Cell(180, 160)];
    assert g.score == 0 && g.food == Cell(100, 100);
  }

  /** A three-segment snake at the top-left corner heading LEFT leaves the canvas and the game ends */
  method WallScenario()
  {
    var g := new Game();
    g.snake := [Cell(0, 0), Cell(20, 0), Cell(40, 0)];
    g.score := 20;
    g.direction := Left;
    g.lastMove := Left;
    var over := g.Tick(0, 0);
    assert !over && g.snake == [Cell(-20, 0), Cell(0, 0), Cell(20, 0)];
    over := g.Tick(0, 0);
    assert over;
  }

  /** Two key presses before a tick: only the first counts, even when it is ignored */
  method DebounceScenario()
  {
    var g := new Game();
    g.ChangeDirection(KeyUp);
    g.ChangeDirection(KeyDown);
    assert g.direction == Up;

    var h := new Game();
    h.ChangeDirection(KeyLeft);   // a reversal: ignored, but uses up the change
    h.ChangeDirection(KeyUp);
    assert h.direction == Right;
  }
}
