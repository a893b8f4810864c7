/** Robots teleporting around a 101 x 103 grid (14/14.py): the position after t seconds,
    the quadrant a position falls in, and the safety factor of a set of positions. */
module RobotQuadrants {

  /** A position or a velocity, (x, y). */
  datatype Coord = Coord(x: int, y: int)

  datatype Robot = Robot(position: Coord, velocity: Coord)

  const Width: int := 101
  const Height: int := 103

  /** Python's `%` with a positive divisor: the remainder has the divisor's sign, so it is
      never negative. For a positive divisor this is exactly Dafny's Euclidean `%`. */
  function FloorMod(a: int, m: int): (r: int)
    requires m > 0
    ensures 0 <= r < m
    ensures exists q :: a == q * m + r
  {
    var r := a % m;
    assert a == (a / m) * m + r;
    r
  }

  /** Each axis wraps around independently: (p + v * t) mod size. */
  function EndPosition(robot: Robot, timesteps: int): (p: Coord)
    ensures 0 <= p.x < Width && 0 <= p.y < Height
    ensures exists q :: robot.position.x + robot.velocity.x * timesteps == q * Width + p.x
    ensures exists q :: robot.position.y + robot.velocity.y * timesteps == q * Height + p.y
  {
    Coord(FloorMod(robot.position.x + robot.velocity.x * timesteps, Width),
          FloorMod(robot.position.y + robot.velocity.y * timesteps, Height))
  }

  /** Quadrant 0 is the middle column or row; otherwise 2 = top-left, 4 = bottom-left,
      1 = top-right, 3 = bottom-right. */
  function Quadrant(pos: Coord, size: Coord): (q: int)
    ensures 0 <= q <= 4
    ensures q == 0 <==> pos.x == size.x / 2 || pos.y == size.y / 2
    ensures q == 2 <==> pos.x < size.x / 2 && pos.y < size.y / 2
    ensures q == 4 <==> pos.x < size.x / 2 && pos.y > size.y / 2
    ensures q == 1 <==> pos.x > size.x / 2 && pos.y < size.y / 2
    ensures q == 3 <==> pos.x > size.x / 2 && pos.y > size.y / 2
  {
    var middle := Coord(size.x / 2, size.y / 2);
    if pos.x == middle.x || pos.y == middle.y then 0
    else if pos.x < middle.x then
      (if pos.y < middle.y then 2 else 4)
    else
      (if pos.y < middle.y then 1 else 3)
  }

  /** How many of the positions fall in quadrant q (the Counter entry, 0 when absent). */
  function CountInQuadrant(coords: seq<Coord>, q: int): (n: nat)
    ensures n <= |coords|
    ensures n == 0 <==> forall i :: 0 <= i < |coords| ==> Quadrant(coords[i], Coord(Width, Height)) != q
  {
    if coords == [] then 0
    else CountInQuadrant(coords[..|coords| - 1], q)
         + (if Quadrant(coords[|coords| - 1], Coord(Width, Height)) == q then 1 else 0)
  }

  /** The product of the counts of quadrants 1 to 4; robots on the middle lines are ignored. */
  function SafetyFactor(coords: seq<Coord>): int
  {
    CountInQuadrant(coords, 1) * CountInQuadrant(coords, 2)
      * CountInQuadrant(coords, 3) * CountInQuadrant(coords, 4)
  }

  lemma ProductZero(a: nat, b: nat, c: nat, d: nat)
    ensures a * b * c * d >= 0
    ensures a * b * c * d == 0 <==> a == 0 || b == 0 || c == 0 || d == 0
  {
    assert a * b >= 0;
    assert a * b * c >= 0;
    if a > 0 && b > 0 && c > 0 && d > 0 {
      assert a * b >= 1;
      assert a * b * c >= 1;
      assert a * b * c * d >= 1;
    }
  }

  /** The safety factor is zero exactly when some quadrant holds no robot. */
  lemma SafetyFactorZero(coords: seq<Coord>)
    ensures SafetyFactor(coords) >= 0
    ensures SafetyFactor(coords) == 0 <==>
      CountInQuadrant(coords, 1) == 0 || CountInQuadrant(coords, 2) == 0
      || CountInQuadrant(coords, 3) == 0 || CountInQuadrant(coords, 4) == 0
  {
    ProductZero(CountInQuadrant(coords, 1), CountInQuadrant(coords, 2),
                CountInQuadrant(coords, 3), CountInQuadrant(coords, 4));
  }

  /** Robots on the middle lines do not change the safety factor. */
  lemma {:induction false} MiddleRobotsIgnored(coords: seq<Coord>, c: Coord)
    requires c.x == Width / 2 || c.y == Height / 2
    ensures SafetyFactor(coords + [c]) == SafetyFactor(coords)
  {
    var s := coords + [c];
    assert s[..|s| - 1] == coords;
    forall q | 1 <= q <= 4 ensures CountInQuadrant(s, q) == CountInQuadrant(coords, q) {
      assert Quadrant(c, Coord(Width, Height)) == 0;
    }
  }

  /** Every quadrant count is bounded by the number of robots counted, and together the five
      quadrants account for every robot. */
  lemma {:induction false} QuadrantsPartition(coords: seq<Coord>)
    ensures CountInQuadrant(coords, 0) + CountInQuadrant(coords, 1) + CountInQuadrant(coords, 2)
            + CountInQuadrant(coords, 3) + CountInQuadrant(coords, 4) == |coords|
  {
    if coords != [] {
      QuadrantsPartition(coords[..|coords| - 1]);
    }
  }
}
