/**
 * The simulation state of one session and the pure rules that advance it:
 * the tick transition (win, grow, lose, move), the rejection sampling of
 * the apple and of the initial tail, and the initial seeding.
 *
 * The random generator is modelled as the stream `rng` of the draws it
 * will produce, each a cell of the grid. A rejection loop consumes draws
 * until one is acceptable.
 */
module Simulation {
  import opened Coordinates

  /** Length at which eating the apple fills the board. */
  const WIN_LENGTH: int := GRID_SIZE * GRID_SIZE - 1

  /** The velocity the snake starts with. */
  const START_SPEED: Coords := Coords(1, 0)

  datatype Outcome = Running | Won | Lost | Quit

  /**
   * The state one tick reads and writes: the body with its head at index 0
   * and its tail last, the apple, the velocity, and the draws the random
   * generator has yet to produce.
   */
  datatype World = World(snake: seq<Coords>, apple: Coords, speed: Coords, rng: seq<Coords>)

  predicate AllInGrid(s: seq<Coords>) {
    forall i :: 0 <= i < |s| ==> InGrid(s[i])
  }

  predicate Distinct(s: seq<Coords>) {
    forall i, j :: 0 <= i < j < |s| ==> s[i] != s[j]
  }

  /**
   * What every reachable state satisfies. The length stays below the
   * board size because growth stops at WIN_LENGTH. Neither "the apple is
   * off the body" nor "the body cells are distinct" is part of it: the
   * initial seeding guarantees neither.
   */
  predicate WellFormed(w: World) {
    3 <= |w.snake| <= WIN_LENGTH && AllInGrid(w.snake) && InGrid(w.apple) && IsDirection(w.speed) && AllInGrid(w.rng)
  }

  /** The cell the head enters on the next tick. */
  function NextHead(w: World): (c: Coords)
    requires |w.snake| > 0
    ensures InGrid(w.snake[0]) && IsDirection(w.speed) ==> InGrid(c) && c != w.snake[0]
  {
    Add(w.snake[0], w.speed)
  }

  /** The tick eats the apple without winning. */
  predicate Grows(w: World)
    requires |w.snake| > 0
  {
    NextHead(w) == w.apple && |w.snake| != WIN_LENGTH
  }

  predicate HasFreeDraw(occupied: seq<Coords>, draws: seq<Coords>) {
    exists i :: 0 <= i < |draws| && draws[i] !in occupied
  }

  /**
   * Index of the draw the apple respawn loop stops at: the first draw not
   * on the body, every earlier one being on it.
   */
  function FirstFree(occupied: seq<Coords>, draws: seq<Coords>): (i: nat)
    requires HasFreeDraw(occupied, draws)
    ensures i < |draws| && draws[i] !in occupied
    ensures forall j :: 0 <= j < i ==> draws[j] in occupied
    decreases |draws|
  {
    if draws[0] !in occupied then 0
    else
      assert HasFreeDraw(occupied, draws[1..]) by {
        var k :| 0 <= k < |draws| && draws[k] !in occupied;
        assert draws[1..][k - 1] == draws[k];
      }
      1 + FirstFree(occupied, draws[1..])
  }

  predicate HasOffColumnDraw(column: int, draws: seq<Coords>) {
    exists i :: 0 <= i < |draws| && draws[i].x != column
  }

  /**
   * Index of the draw the initial tail loop stops at: the first draw
   * whose x differs from `column`, every earlier one sharing it.
   */
  function FirstOffColumn(column: int, draws: seq<Coords>): (i: nat)
    requires HasOffColumnDraw(column, draws)
    ensures i < |draws| && draws[i].x != column
    ensures forall j :: 0 <= j < i ==> draws[j].x == column
    decreases |draws|
  {
    if draws[0].x != column then 0
    else
      assert HasOffColumnDraw(column, draws[1..]) by {
        var k :| 0 <= k < |draws| && draws[k].x != column;
        assert draws[1..][k - 1] == draws[k];
      }
      1 + FirstOffColumn(column, draws[1..])
  }

  /**
   * The apple respawn loop: draw until a cell off the body comes up.
   * Returns that cell and how many draws were used.
   */
  method SpawnApple(snake: seq<Coords>, draws: seq<Coords>) returns (apple: Coords, used: nat)
    requires HasFreeDraw(snake, draws)
    ensures 1 <= used <= |draws| && used == FirstFree(snake, draws) + 1
    ensures apple == draws[used - 1] && apple !in snake
    ensures AllInGrid(draws) ==> InGrid(apple)
  {
    ghost var k := FirstFree(snake, draws);
    used := 0;
    apple := draws[0];
    while true
      invariant used <= k
      invariant forall j :: 0 <= j < used ==> draws[j] in snake
      decreases k - used
    {
      apple := draws[used];
      used := used + 1;
      if apple !in snake {
        break;
      }
    }
  }

  /**
   * The initial tail loop: starting from the apple itself, draw until a
   * cell whose x differs from the apple's comes up. Only x is compared.
   */
  method PickTail(apple: Coords, draws: seq<Coords>) returns (tail: Coords, used: nat)
    requires HasOffColumnDraw(apple.x, draws)
    ensures 1 <= used <= |draws| && used == FirstOffColumn(apple.x, draws) + 1
    ensures tail == draws[used - 1] && tail.x != apple.x
  {
    ghost var k := FirstOffColumn(apple.x, draws);
    tail := apple;
    used := 0;
    while apple.x == tail.x
      invariant used <= k + 1
      invariant used == 0 ==> tail == apple
      invariant used > 0 ==> tail == draws[used - 1]
      decreases k + 1 - used
    {
      tail := draws[used];
      used := used + 1;
    }
  }

  /**
   * The session's initial state: the first draw is the apple, the tail is
   * the first later draw off the apple's column, and the body is the
   * tail followed by two cells ahead of it in the start direction.
   */
  function Seeded(rng: seq<Coords>): (w: World)
    requires |rng| > 0 && HasOffColumnDraw(rng[0].x, rng[1..])
    ensures |w.snake| == 3 && w.apple == rng[0] && w.speed == START_SPEED
    ensures w.snake[2] in rng[1..] && w.snake[2].x != w.apple.x
    ensures |w.rng| < |rng| && w.rng == rng[|rng| - |w.rng|..]
  {
    var apple := rng[0];
    var i := FirstOffColumn(apple.x, rng[1..]);
    var tail := rng[1 + i];
    World([Add(Add(tail, START_SPEED), START_SPEED), Add(tail, START_SPEED), tail],
          apple, START_SPEED, rng[i + 2..])
  }

  /** Can the session be seeded from this stream of draws? */
  predicate CanSeed(rng: seq<Coords>) {
    |rng| > 0 && HasOffColumnDraw(rng[0].x, rng[1..]) && AllInGrid(rng)
  }

  /** Can the next tick run to completion (the respawn loop ends)? */
  predicate CanTick(w: World) {
    |w.snake| > 0 && (Grows(w) ==> HasFreeDraw([NextHead(w)] + w.snake, w.rng))
  }

  /**
   * One simulation tick. A terminal outcome leaves the state as it was;
   * a running tick pushes the next head to the front and grows the body
   * exactly when that cell held the apple.
   */
  function Step(w: World): (r: (Outcome, World))
    requires CanTick(w)
    ensures r.0 != Quit
    ensures r.0 == Won <==> NextHead(w) == w.apple && |w.snake| == WIN_LENGTH
    ensures r.0 == Lost <==> NextHead(w) != w.apple && NextHead(w) in w.snake
    ensures r.0 != Running ==> r.1 == w
    ensures r.0 == Running ==>
              |r.1.snake| > 0 && r.1.snake[0] == NextHead(w) && r.1.speed == w.speed &&
              |r.1.snake| == |w.snake| + (if NextHead(w) == w.apple then 1 else 0)
  {
    var next := NextHead(w);
    if next == w.apple then
      if |w.snake| == WIN_LENGTH then (Won, w)
      else
        var grown := [next] + w.snake;
        var i := FirstFree(grown, w.rng);
        (Running, w.(snake := grown, apple := w.rng[i], rng := w.rng[i + 1..]))
    else if next in w.snake then (Lost, w)
    else (Running, w.(snake := [next] + w.snake[..|w.snake| - 1]))
  }
}
