/**
 * What one tick does, case by case, and which properties of the state it
 * keeps.
 */
module TickProperties {
  import opened Coordinates
  import opened Simulation

  /**
   * Plain move: the head advances one cell, the tail cell is dropped,
   * the length and the apple stay.
   */
  lemma MoveStep(w: World)
    requires WellFormed(w)
    requires NextHead(w) != w.apple && NextHead(w) !in w.snake
    ensures CanTick(w)
    ensures var (o, w') := Step(w);
      o == Running && |w'.snake| == |w.snake| &&
      w'.snake[0] == Add(w.snake[0], w.speed) && w'.snake[1..] == w.snake[..|w.snake| - 1] &&
      w'.apple == w.apple && w'.speed == w.speed && w'.rng == w.rng
  {
  }

  /**
   * Growth: the head advances onto the apple and every old cell, the old
   * tail included, stays behind it in order. The new apple is the first
   * draw off the grown body.
   */
  lemma GrowStep(w: World)
    requires WellFormed(w) && CanTick(w)
    requires NextHead(w) == w.apple && |w.snake| != WIN_LENGTH
    ensures var (o, w') := Step(w);
      o == Running && |w'.snake| == |w.snake| + 1 &&
      w'.snake[0] == w.apple && w'.snake[1..] == w.snake &&
      InGrid(w'.apple) && w'.apple !in w'.snake &&
      w'.speed == w.speed &&
      exists i :: 0 <= i < |w.rng| && w'.apple == w.rng[i] && w'.rng == w.rng[i + 1..] &&
                  forall j :: 0 <= j < i ==> w.rng[j] in w'.snake
  {
  }

  /** Self-collision: the game is lost and nothing moves. */
  lemma LoseStep(w: World)
    requires |w.snake| > 0
    requires NextHead(w) != w.apple && NextHead(w) in w.snake
    ensures CanTick(w) && Step(w) == (Lost, w)
  {
  }

  /**
   * The collision test runs before the tail is dropped, so moving into
   * the cell the tail is about to leave also loses.
   */
  lemma TailCollisionLoses(w: World)
    requires |w.snake| > 0
    requires NextHead(w) == w.snake[|w.snake| - 1] && NextHead(w) != w.apple
    ensures CanTick(w) && Step(w).0 == Lost
  {
  }

  /** Reaching the apple at length WIN_LENGTH wins without growing. */
  lemma WinStep(w: World)
    requires |w.snake| == WIN_LENGTH && NextHead(w) == w.apple
    ensures CanTick(w) && Step(w) == (Won, w)
  {
  }

  /** A tick that keeps the game running keeps the state well formed. */
  lemma StepPreservesWellFormed(w: World)
    requires WellFormed(w) && CanTick(w)
    ensures Step(w).0 == Running ==> WellFormed(Step(w).1)
  {
  }

  /**
   * Once the apple is off a body of distinct cells, every running tick
   * keeps it so: a plain move enters a free cell, and growth enters the
   * apple's cell, which was free, before a free cell is drawn.
   */
  lemma StepKeepsBodyClear(w: World)
    requires CanTick(w) && Distinct(w.snake) && w.apple !in w.snake
    ensures Step(w).0 == Running ==> Distinct(Step(w).1.snake) && Step(w).1.apple !in Step(w).1.snake
  {
  }

  /**
   * Once the apple is off the body, every running tick keeps it off,
   * whether or not the body's cells are distinct.
   */
  lemma StepKeepsAppleOffBody(w: World)
    requires CanTick(w) && w.apple !in w.snake
    ensures Step(w).0 == Running ==> Step(w).1.apple !in Step(w).1.snake
  {
  }

  /**
   * The seeded session: three cells in a row ending at the tail, the
   * velocity (1,0), all cells in the grid, and the tail's column
   * different from the apple's.
   */
  lemma SeededShape(rng: seq<Coords>)
    requires CanSeed(rng)
    ensures var w := Seeded(rng);
      WellFormed(w) && |w.snake| == 3 && Distinct(w.snake) &&
      w.apple == rng[0] && w.snake[2].x != w.apple.x &&
      w.snake[1] == Add(w.snake[2], START_SPEED) && w.snake[0] == Add(w.snake[1], START_SPEED) &&
      w.snake[0].y == w.snake[1].y == w.snake[2].y
  {
  }

  /**
   * Only the tail's column is compared with the apple's, so the apple
   * may start on the body: apple (5,5), tail (4,5) gives the body
   * (6,5), (5,5), (4,5).
   */
  lemma SeedMayCoverApple()
    ensures CanSeed([Coords(5, 5), Coords(4, 5)])
    ensures var w := Seeded([Coords(5, 5), Coords(4, 5)]);
      w.snake == [Coords(6, 5), Coords(5, 5), Coords(4, 5)] && w.apple in w.snake
  {
    assert HasOffColumnDraw(5, [Coords(4, 5)]) by {
      assert [Coords(4, 5)][0].x != 5;
    }
  }

  /**
   * When the first draw after the apple is already off the apple's column,
   * the tail loop stops there and the remaining draws start after it.
   */
  lemma SeededFirstTailAccepted(rng: seq<Coords>)
    requires |rng| >= 2 && rng[1].x != rng[0].x
    ensures HasOffColumnDraw(rng[0].x, rng[1..])
    ensures Seeded(rng) == World([Add(Add(rng[1], START_SPEED), START_SPEED), Add(rng[1], START_SPEED), rng[1]],
                                 rng[0], START_SPEED, rng[2..])
  {
  }

  /** The seeded state the next lemma starts from, computed cell by cell. */
  lemma SeededWithAppleInside(rng: seq<Coords>)
    requires rng == [Coords(5, 5), Coords(4, 5), Coords(0, 0)]
    ensures CanSeed(rng)
    ensures Seeded(rng) == World([Coords(6, 5), Coords(5, 5), Coords(4, 5)], Coords(5, 5), START_SPEED, [Coords(0, 0)])
  {
    var tail := Coords(4, 5);
    assert rng[1] == tail;
    SeededFirstTailAccepted(rng);
    var middle := Add(tail, START_SPEED);
    var head := Add(middle, START_SPEED);
    assert middle == Coords(5, 5);
    assert head == Coords(6, 5);
    assert rng[2..] == [Coords(0, 0)];
    assert Seeded(rng) == World([head, middle, tail], rng[0], START_SPEED, rng[2..]);
  }

  /**
   * Growth does not test for self-collision: when the apple lies inside
   * the body, eating it pushes a cell the body already holds, so the
   * grown body's cells are not distinct.
   */
  lemma GrowingIntoBodyRepeatsCell(w: World)
    requires CanTick(w) && Grows(w) && w.apple in w.snake
    ensures Step(w).0 == Running && Step(w).1.snake == [w.apple] + w.snake
    ensures !Distinct(Step(w).1.snake)
  {
    var k :| 0 <= k < |w.snake| && w.snake[k] == w.apple;
    var s := Step(w).1.snake;
    assert s[0] == s[k + 1];
  }

  /**
   * The apple does start inside the body: from the seeding with apple
   * (5,5) and tail (4,5), turning Left before the first tick eats the
   * apple there, and the body then holds the cell (5,5) twice.
   */
  lemma GrowthCanRepeatCell(rng: seq<Coords>, w: World)
    requires rng == [Coords(5, 5), Coords(4, 5), Coords(0, 0)]
    requires w == World([Coords(6, 5), Coords(5, 5), Coords(4, 5)], Coords(5, 5), Coords(-1, 0), [Coords(0, 0)])
    ensures CanSeed(rng) && w == Seeded(rng).(speed := Coords(-1, 0))
    ensures CanTick(w) && Step(w).0 == Running
    ensures Step(w).1.snake == [Coords(5, 5), Coords(6, 5), Coords(5, 5), Coords(4, 5)]
    ensures !Distinct(Step(w).1.snake)
  {
    SeededWithAppleInside(rng);
    assert NextHead(w) == Coords(5, 5);
    assert w.apple == w.snake[1];
    assert HasFreeDraw([NextHead(w)] + w.snake, w.rng) by {
      assert w.rng[0] !in [NextHead(w)] + w.snake;
    }
    GrowingIntoBodyRepeatsCell(w);
  }

  /** Eating: body (2,0),(1,0),(0,0) heading right onto the apple at (3,0). */
  lemma EatExample(rng: seq<Coords>)
    requires AllInGrid(rng)
    requires HasFreeDraw([Coords(3, 0), Coords(2, 0), Coords(1, 0), Coords(0, 0)], rng)
    ensures var w := World([Coords(2, 0), Coords(1, 0), Coords(0, 0)], Coords(3, 0), Coords(1, 0), rng);
      CanTick(w) && Step(w).0 == Running &&
      Step(w).1.snake == [Coords(3, 0), Coords(2, 0), Coords(1, 0), Coords(0, 0)] &&
      InGrid(Step(w).1.apple) && Step(w).1.apple !in Step(w).1.snake
  {
    var w := World([Coords(2, 0), Coords(1, 0), Coords(0, 0)], Coords(3, 0), Coords(1, 0), rng);
    GrowStep(w);
  }

  /** Wrapping move: body (0,0),(1,0),(2,0) heading left enters (39,0). */
  lemma WrapMoveExample(apple: Coords, rng: seq<Coords>)
    requires apple != Coords(GRID_SIZE - 1, 0)
    ensures var w := World([Coords(0, 0), Coords(1, 0), Coords(2, 0)], apple, Coords(-1, 0), rng);
      CanTick(w) && Step(w) == (Running, w.(snake := [Coords(GRID_SIZE - 1, 0), Coords(0, 0), Coords(1, 0)]))
  {
    var w := World([Coords(0, 0), Coords(1, 0), Coords(2, 0)], apple, Coords(-1, 0), rng);
    assert NextHead(w) == Coords(GRID_SIZE - 1, 0);
    assert NextHead(w) !in w.snake;
    assert w.snake[..2] == [Coords(0, 0), Coords(1, 0)];
    assert Step(w).1.snake == [Coords(GRID_SIZE - 1, 0)] + w.snake[..2];
    assert Step(w).1.snake == [Coords(GRID_SIZE - 1, 0), Coords(0, 0), Coords(1, 0)];
  }

  /**
   * Collision: body (5,5),(4,5),(4,4),(5,4) heading up re-enters its own
   * tail cell (5,4) and loses.
   */
  lemma CollisionExample(rng: seq<Coords>)
    ensures var w := World([Coords(5, 5), Coords(4, 5), Coords(4, 4), Coords(5, 4)], Coords(0, 0), Coords(0, -1), rng);
      CanTick(w) && Step(w) == (Lost, w)
  {
  }
}
