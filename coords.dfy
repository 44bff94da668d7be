/**
 * Grid coordinates of the snake game: points on a GRID_SIZE x GRID_SIZE
 * torus. Adding a velocity wraps each axis back into [0, GRID_SIZE) by
 * adding or subtracting GRID_SIZE at most once.
 */
module Coordinates {

  /** Cells per side of the square grid. */
  const GRID_SIZE: int := 40

  /** Range of the 16-bit signed integers the game stores coordinates in. */
  const I16_MIN: int := -32768
  const I16_MAX: int := 32767

  /** A grid cell, or a velocity when used as the right operand of Add. */
  datatype Coords = Coords(x: int, y: int)

  predicate InGrid(c: Coords) {
    0 <= c.x < GRID_SIZE && 0 <= c.y < GRID_SIZE
  }

  predicate InI16(v: int) {
    I16_MIN <= v <= I16_MAX
  }

  /** A delta whose components are each -1, 0 or 1. */
  predicate IsStep(d: Coords) {
    -1 <= d.x <= 1 && -1 <= d.y <= 1
  }

  /** One of the four unit velocities the snake can have. */
  predicate IsDirection(d: Coords) {
    (d.x == 0 && (d.y == 1 || d.y == -1)) || (d.y == 0 && (d.x == 1 || d.x == -1))
  }

  function Negate(d: Coords): Coords {
    Coords(-d.x, -d.y)
  }

  /**
   * One axis of clamp: add GRID_SIZE if negative, then subtract GRID_SIZE
   * if at least GRID_SIZE. A single wrap, so only values in
   * [-GRID_SIZE, 2 * GRID_SIZE) land in the grid.
   */
  function WrapAxis(v: int): (w: int)
    ensures w == v || w == v + GRID_SIZE || w == v - GRID_SIZE
    ensures 0 <= v < GRID_SIZE ==> w == v
    ensures -GRID_SIZE <= v < 2 * GRID_SIZE ==> 0 <= w < GRID_SIZE && w == v % GRID_SIZE
    ensures v < -GRID_SIZE ==> w < 0
    ensures v >= 2 * GRID_SIZE ==> w >= GRID_SIZE
  {
    var v' := if v < 0 then GRID_SIZE + v else v;
    if v' >= GRID_SIZE then v' - GRID_SIZE else v'
  }

  /** The value `Coords::clamp` leaves in its argument. */
  function Clamped(c: Coords): (r: Coords)
    ensures InGrid(c) ==> r == c
    ensures -GRID_SIZE <= c.x < 2 * GRID_SIZE && -GRID_SIZE <= c.y < 2 * GRID_SIZE ==> InGrid(r)
  {
    Coords(WrapAxis(c.x), WrapAxis(c.y))
  }

  /** `Coords::clamp`: updates the coordinate one axis test at a time. */
  method Clamp(c: Coords) returns (r: Coords)
    ensures r == Clamped(c)
    ensures r.x % GRID_SIZE == c.x % GRID_SIZE && r.y % GRID_SIZE == c.y % GRID_SIZE
  {
    r := c;
    if r.x < 0 {
      r := r.(x := GRID_SIZE + r.x);
    }
    if r.x >= GRID_SIZE {
      r := r.(x := r.x - GRID_SIZE);
    }
    if r.y < 0 {
      r := r.(y := GRID_SIZE + r.y);
    }
    if r.y >= GRID_SIZE {
      r := r.(y := r.y - GRID_SIZE);
    }
  }

  /** Clamping one axis does not look at the other axis. */
  lemma ClampAxesIndependent(c: Coords, d: Coords)
    ensures c.x == d.x ==> Clamped(c).x == Clamped(d).x
    ensures c.y == d.y ==> Clamped(c).y == Clamped(d).y
  {
  }

  /** `Coords + Coords`: componentwise sum, then clamp. */
  function Add(a: Coords, b: Coords): (r: Coords)
    ensures InGrid(a) && IsStep(b) ==> InI16(a.x + b.x) && InI16(a.y + b.y)
    ensures InGrid(a) && IsStep(b) ==>
              InGrid(r) && r.x == (a.x + b.x) % GRID_SIZE && r.y == (a.y + b.y) % GRID_SIZE
  {
    Clamped(Coords(a.x + b.x, a.y + b.y))
  }

  /** `PartialEq::eq` for Coords: componentwise, which is structural equality. */
  function Eq(a: Coords, b: Coords): (r: bool)
    ensures r <==> a == b
  {
    a.x == b.x && a.y == b.y
  }

  /** Leaving the grid on one edge re-enters on the opposite edge. */
  lemma AddWrapsAtEdges()
    ensures Add(Coords(0, 0), Coords(-1, 0)) == Coords(GRID_SIZE - 1, 0)
    ensures Add(Coords(GRID_SIZE - 1, 0), Coords(1, 0)) == Coords(0, 0)
    ensures Add(Coords(0, 0), Coords(0, -1)) == Coords(0, GRID_SIZE - 1)
    ensures Add(Coords(0, GRID_SIZE - 1), Coords(0, 1)) == Coords(0, 0)
  {
  }

  /** A step on the torus is undone by the opposite step. */
  lemma AddNegateCancels(c: Coords, d: Coords)
    requires InGrid(c) && IsStep(d)
    ensures Add(Add(c, d), Negate(d)) == c
  {
  }

  /** A unit direction takes every cell to a different cell. */
  lemma DirectionMoves(c: Coords, d: Coords)
    requires InGrid(c) && IsDirection(d)
    ensures Add(c, d) != c
  {
  }
}
