/**
 * Hex-grid coordinates: odd-row offset ("oddr") and cube coordinates, and the
 * hex distance as half the cube Manhattan distance. A `Hex` is either form;
 * equality is structural on the two constructors. `y & 1` is written `y % 2`,
 * which agrees with two's complement for negative `y`, and every division
 * here has an even or non-negative dividend, so Rust's truncating `/` and
 * Dafny's Euclidean `/` agree on it.
 */
module HexGrid {

  datatype IVec2 = IVec2(x: int, y: int)

  datatype IVec3 = IVec3(x: int, y: int, z: int)

  datatype Hex = Oddr(pos: IVec2) | Cube(cube: IVec3)

  function Abs(n: int): nat
  {
    if n < 0 then -n else n
  }

  function ManhattanDistance(a: IVec3, b: IVec3): (d: int)
    ensures d >= 0
  {
    Abs(a.x - b.x) + Abs(a.y - b.y) + Abs(a.z - b.z)
  }

  /** The cube form this model produces: its third coordinate is `-x + y`. */
  predicate OnPlane(c: IVec3)
  {
    c.z == -c.x + c.y
  }

  /** A hex whose cube form lies on the plane: every `Oddr`, and every `Cube` built by `FromCube`. */
  predicate WellFormed(h: Hex)
  {
    h.Oddr? || OnPlane(h.cube)
  }

  /** `Hex::from_oddr`: the hex at an offset position (its facts are `CubesOnPlane`). */
  function FromOddr(pos: IVec2): Hex
  {
    Oddr(pos)
  }

  /** `Hex::from_cube`: the cube on the plane with the given first two coordinates (see `CubesOnPlane`). */
  function FromCube(pos: IVec2): Hex
  {
    Cube(IVec3(pos.x, pos.y, -pos.x + pos.y))
  }

  /** `(y + (y & 1)) / 2`: the exact half of an even number. */
  function HalfUp(y: int): (r: int)
    ensures 2 * r == y + y % 2
  {
    (y + y % 2) / 2
  }

  /** `Hex::to_oddr`: the offset position of the same cell. */
  function ToOddr(h: Hex): IVec2
  {
    match h
    case Oddr(pos) => pos
    case Cube(pos) => IVec2(pos.x - HalfUp(pos.y), pos.y)
  }

  /** `Hex::to_cube`: the cube coordinates of the cell. */
  function ToCube(h: Hex): IVec3
  {
    match h
    case Cube(pos) => pos
    case Oddr(pos) =>
      var q := pos.x + HalfUp(pos.y);
      var r := pos.y;
      IVec3(q, r, -q + r)
  }

  function Dist(a: Hex, b: Hex): (d: int)
    ensures d >= 0
  {
    ManhattanDistance(ToCube(a), ToCube(b)) / 2
  }

  /** The cube of a hex, read back as a `Cube` hex through `FromCube`. */
  function Canonical(h: Hex): Hex
  {
    var c := ToCube(h);
    FromCube(IVec2(c.x, c.y))
  }

  // ---------------------------------------------------------------------------
  // Properties

  /** oddr -> cube -> oddr is the identity on every integer position. */
  lemma RoundTrip(p: IVec2)
    ensures ToOddr(Canonical(FromOddr(p))) == p
  {
  }

  /** Converting a well-formed hex through either form keeps its cube coordinates. */
  lemma CubeOfOddrOfCube(h: Hex)
    requires WellFormed(h)
    ensures ToCube(FromOddr(ToOddr(h))) == ToCube(h)
    ensures ToCube(Canonical(h)) == ToCube(h)
  {
  }

  /** A cube on the plane is rebuilt exactly by `FromCube` from its first two coordinates. */
  lemma CubeOfFromCube(c: IVec3)
    requires OnPlane(c)
    ensures ToCube(FromCube(IVec2(c.x, c.y))) == c
  {
  }

  /** Both conversions keep the row, and an oddr hex converts back to its own position. */
  lemma ConversionsKeepRow(h: Hex)
    ensures ToOddr(h).y == ToCube(h).y
    ensures h.Oddr? ==> ToOddr(h) == h.pos && ToCube(h).y == h.pos.y
  {
  }

  /** The Manhattan distance is zero exactly between equal cubes. */
  lemma ManhattanZero(a: IVec3, b: IVec3)
    ensures ManhattanDistance(a, b) == 0 <==> a == b
  {
  }

  /**
   * Every cube value produced, by `FromCube` or by `ToCube`, has `z == -x + y`;
   * `FromOddr` keeps the row and `FromCube` keeps the first two coordinates.
   */
  lemma CubesOnPlane(p: IVec2, h: Hex)
    requires WellFormed(h)
    ensures WellFormed(FromOddr(p)) && WellFormed(FromCube(p))
    ensures OnPlane(ToCube(FromOddr(p))) && OnPlane(ToCube(FromCube(p)))
    ensures OnPlane(ToCube(h))
    ensures ToCube(FromOddr(p)).y == p.y
    ensures ToCube(FromCube(p)).x == p.x && ToCube(FromCube(p)).y == p.y
  {
  }

  lemma AbsMinusIsEven(n: int)
    ensures (Abs(n) - n) % 2 == 0
  {
  }

  /** Between two cubes on the plane the Manhattan distance is even, so `dist` halves it exactly. */
  lemma ManhattanEven(a: IVec3, b: IVec3)
    requires OnPlane(a) && OnPlane(b)
    ensures ManhattanDistance(a, b) % 2 == 0
  {
    var dx, dy := a.x - b.x, a.y - b.y;
    assert a.z - b.z == dy - dx;
    var k1 := (Abs(dx) - dx) / 2;
    var k2 := (Abs(dy) - dy) / 2;
    var k3 := (Abs(dy - dx) - (dy - dx)) / 2;
    AbsMinusIsEven(dx);
    AbsMinusIsEven(dy);
    AbsMinusIsEven(dy - dx);
    assert ManhattanDistance(a, b) == 2 * (k1 + k2 + k3 + dy);
  }

  lemma DistExact(a: Hex, b: Hex)
    requires WellFormed(a) && WellFormed(b)
    ensures 2 * Dist(a, b) == ManhattanDistance(ToCube(a), ToCube(b))
  {
    CubesOnPlane(IVec2(0, 0), a);
    CubesOnPlane(IVec2(0, 0), b);
    ManhattanEven(ToCube(a), ToCube(b));
  }

  lemma DistSymmetric(a: Hex, b: Hex)
    ensures Dist(a, b) == Dist(b, a)
  {
  }

  /** The distance is zero exactly between hexes with the same cube, a hex and itself among them. */
  lemma DistZero(a: Hex, b: Hex)
    requires WellFormed(a) && WellFormed(b)
    ensures Dist(a, b) == 0 <==> ToCube(a) == ToCube(b)
    ensures Dist(a, a) == 0
  {
    DistExact(a, b);
    ManhattanZero(ToCube(a), ToCube(b));
  }

  /** An `Oddr` and a `Cube` for the same cell are different values although they are zero apart. */
  lemma StructuralEquality(p: IVec2)
    ensures FromOddr(p) != Canonical(FromOddr(p))
    ensures Dist(FromOddr(p), Canonical(FromOddr(p))) == 0
  {
  }

  // ---------------------------------------------------------------------------
  // The test fixtures of src/utils/hex.rs, compared coordinate by coordinate

  const ODDR: seq<(int, int)> := [(0, 0), (0, 2), (2, 0), (1, 1), (2, 1)]
  const CUBE: seq<(int, int, int)> := [(0, 0, 0), (1, 2, 1), (2, 0, -2), (2, 1, -1), (3, 1, -2)]

  predicate IsOddr(v: IVec2, t: (int, int))
  {
    v.x == t.0 && v.y == t.1
  }

  predicate IsCube(v: IVec3, t: (int, int, int))
  {
    v.x == t.0 && v.y == t.1 && v.z == t.2
  }

  /** `convert_from_oddr_to_cube`: each oddr fixture converts to the cube fixture at its index. */
  lemma OddrToCubeFixtures()
    ensures forall i :: 0 <= i < 5 ==> IsCube(ToCube(FromOddr(IVec2(ODDR[i].0, ODDR[i].1))), CUBE[i])
  {
  }

  /** `convert_from_cube_to_oddr`: each cube fixture converts back to the oddr fixture at its index. */
  lemma CubeToOddrFixtures()
    ensures forall i :: 0 <= i < 5 ==> IsOddr(ToOddr(FromCube(IVec2(CUBE[i].0, CUBE[i].1))), ODDR[i])
  {
  }

  /** `distance_oddr`, row 1 of `DISTS` without its leading zero (the distance of a hex to itself is `DistZero`). */
  lemma OddrDistanceRow1()
    ensures Dist(FromOddr(IVec2(0, 0)), FromOddr(IVec2(0, 2))) == 2
    ensures Dist(FromOddr(IVec2(0, 0)), FromOddr(IVec2(2, 0))) == 2
    ensures Dist(FromOddr(IVec2(0, 0)), FromOddr(IVec2(1, 1))) == 2
    ensures Dist(FromOddr(IVec2(0, 0)), FromOddr(IVec2(2, 1))) == 3
  {
    assert IsCube(ToCube(FromOddr(IVec2(0, 0))), (0, 0, 0));
    assert IsCube(ToCube(FromOddr(IVec2(0, 2))), (1, 2, 1));
    assert IsCube(ToCube(FromOddr(IVec2(2, 0))), (2, 0, -2));
    assert IsCube(ToCube(FromOddr(IVec2(1, 1))), (2, 1, -1));
    assert IsCube(ToCube(FromOddr(IVec2(2, 1))), (3, 1, -2));
  }

  /** `distance_oddr`, row 2 of `DISTS` without its leading zero. */
  lemma OddrDistanceRow2()
    ensures Dist(FromOddr(IVec2(0, 2)), FromOddr(IVec2(2, 0))) == 3
    ensures Dist(FromOddr(IVec2(0, 2)), FromOddr(IVec2(1, 1))) == 2
    ensures Dist(FromOddr(IVec2(0, 2)), FromOddr(IVec2(2, 1))) == 3
  {
    assert IsCube(ToCube(FromOddr(IVec2(0, 2))), (1, 2, 1));
    assert IsCube(ToCube(FromOddr(IVec2(2, 0))), (2, 0, -2));
    assert IsCube(ToCube(FromOddr(IVec2(1, 1))), (2, 1, -1));
    assert IsCube(ToCube(FromOddr(IVec2(2, 1))), (3, 1, -2));
  }

  /** `distance_oddr`, row 3 of `DISTS` without its leading zero. */
  lemma OddrDistanceRow3()
    ensures Dist(FromOddr(IVec2(2, 0)), FromOddr(IVec2(1, 1))) == 1
    ensures Dist(FromOddr(IVec2(2, 0)), FromOddr(IVec2(2, 1))) == 1
  {
    assert IsCube(ToCube(FromOddr(IVec2(2, 0))), (2, 0, -2));
    assert IsCube(ToCube(FromOddr(IVec2(1, 1))), (2, 1, -1));
    assert IsCube(ToCube(FromOddr(IVec2(2, 1))), (3, 1, -2));
  }

  /** `distance_oddr`, row 4 of `DISTS` without its leading zero. */
  lemma OddrDistanceRow4()
    ensures Dist(FromOddr(IVec2(1, 1)), FromOddr(IVec2(2, 1))) == 1
  {
    assert IsCube(ToCube(FromOddr(IVec2(1, 1))), (2, 1, -1));
    assert IsCube(ToCube(FromOddr(IVec2(2, 1))), (3, 1, -2));
  }

  /** `distance_cube`: all fifteen entries of `DISTS`, pairs taken row by row with i <= j. */
  lemma CubeDistanceFixtures()
    ensures Dist(FromCube(IVec2(0, 0)), FromCube(IVec2(0, 0))) == 0
    ensures Dist(FromCube(IVec2(0, 0)), FromCube(IVec2(1, 2))) == 2
    ensures Dist(FromCube(IVec2(0, 0)), FromCube(IVec2(2, 0))) == 2
    ensures Dist(FromCube(IVec2(0, 0)), FromCube(IVec2(2, 1))) == 2
    ensures Dist(FromCube(IVec2(0, 0)), FromCube(IVec2(3, 1))) == 3
    ensures Dist(FromCube(IVec2(1, 2)), FromCube(IVec2(1, 2))) == 0
    ensures Dist(FromCube(IVec2(1, 2)), FromCube(IVec2(2, 0))) == 3
    ensures Dist(FromCube(IVec2(1, 2)), FromCube(IVec2(2, 1))) == 2
    ensures Dist(FromCube(IVec2(1, 2)), FromCube(IVec2(3, 1))) == 3
    ensures Dist(FromCube(IVec2(2, 0)), FromCube(IVec2(2, 0))) == 0
    ensures Dist(FromCube(IVec2(2, 0)), FromCube(IVec2(2, 1))) == 1
    ensures Dist(FromCube(IVec2(2, 0)), FromCube(IVec2(3, 1))) == 1
    ensures Dist(FromCube(IVec2(2, 1)), FromCube(IVec2(2, 1))) == 0
    ensures Dist(FromCube(IVec2(2, 1)), FromCube(IVec2(3, 1))) == 1
    ensures Dist(FromCube(IVec2(3, 1)), FromCube(IVec2(3, 1))) == 0
  {
    assert IsCube(ToCube(FromCube(IVec2(0, 0))), (0, 0, 0));
    assert IsCube(ToCube(FromCube(IVec2(1, 2))), (1, 2, 1));
    assert IsCube(ToCube(FromCube(IVec2(2, 0))), (2, 0, -2));
    assert IsCube(ToCube(FromCube(IVec2(2, 1))), (2, 1, -1));
    assert IsCube(ToCube(FromCube(IVec2(3, 1))), (3, 1, -2));
  }
}
