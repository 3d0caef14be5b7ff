/**
 * Grid cell keys: the integer triple a vertex position is mapped to, its
 * equality and hash, and the arithmetic of `positionToGrid`.
 */
module Grid {
  import opened Geometry

  /** A grid cell key; a value compared component by component. */
  datatype Grid3D = Grid3D(x: int, y: int, z: int)

  /** `Grid3D::operator==`. */
  predicate Equals(a: Grid3D, b: Grid3D)
  {
    a.x == b.x && a.y == b.y && a.z == b.z
  }

  /**
   * Key equality coincides with value identity, so a map keyed by `Grid3D`
   * compares keys exactly as the source's hash map does; in particular the
   * relation is reflexive, symmetric and transitive.
   */
  lemma EqualsIsIdentity(a: Grid3D, b: Grid3D, c: Grid3D)
    ensures Equals(a, b) <==> a == b
    ensures Equals(a, a)
    ensures Equals(a, b) ==> Equals(b, a)
    ensures Equals(a, b) && Equals(b, c) ==> Equals(a, c)
  {
  }

  /** The width of `size_t`: unsigned arithmetic wraps modulo 2^64. */
  const SizeModulus: int := 0x1_0000_0000_0000_0000

  /**
   * `Grid3D::hash()`: each component converted to `size_t` (a negative value
   * wraps), scaled by a fixed prime, summed, all modulo 2^64.
   */
  function Hash(g: Grid3D): (h: int)
    ensures 0 <= h < SizeModulus
  {
    (g.x * 73856093 + g.y * 19349663 + g.z * 83492791) % SizeModulus
  }

  /** `GridHasher::operator()`: the key's own hash, unchanged; a `size_t`. */
  function GridHasher(g: Grid3D): (h: int)
    ensures 0 <= h < SizeModulus
  {
    Hash(g)
  }

  /** Keys that are equal have equal hashes. */
  lemma EqualKeysHashEqual(a: Grid3D, b: Grid3D)
    requires Equals(a, b)
    ensures GridHasher(a) == GridHasher(b)
  {
  }

  /**
   * Two different keys, both within 32-bit range, with the same hash: the hash
   * alone does not identify a cell, and the maps rely on `Equals`.
   */
  lemma HashCollision()
    ensures Grid3D(19349663, -73856093, 0) != Grid3D(0, 0, 0)
    ensures Hash(Grid3D(19349663, -73856093, 0)) == Hash(Grid3D(0, 0, 0))
  {
  }

  /** `static_cast<int>` of a real: truncation toward zero. */
  function Trunc(r: real): (n: int)
    ensures 0.0 <= r ==> n as real <= r < n as real + 1.0
    ensures r < 0.0 ==> n as real - 1.0 < r <= n as real
  {
    if r >= 0.0 then r.Floor else -((-r).Floor)
  }

  /** No axis of the box `lo`..`hi` is flat, so every axis extent can divide. */
  predicate NonFlat(lo: Vector3, hi: Vector3)
  {
    lo.x < hi.x && lo.y < hi.y && lo.z < hi.z
  }

  /** One key component: position normalised to the extent, scaled by `gridSize`, truncated. */
  function Cell(gridSize: int, p: real, lo: real, hi: real): int
    requires lo < hi
  {
    Trunc((p - lo) / (hi - lo) * gridSize as real)
  }

  /** `positionToGrid`: the key of the cell that holds `pos`. */
  function PositionToGrid(gridSize: int, pos: Vector3, lo: Vector3, hi: Vector3): Grid3D
    requires NonFlat(lo, hi)
  {
    Grid3D(Cell(gridSize, pos.x, lo.x, hi.x),
           Cell(gridSize, pos.y, lo.y, hi.y),
           Cell(gridSize, pos.z, lo.z, hi.z))
  }

  /** The product of two positive reals is positive. */
  lemma MulPos(a: real, b: real)
    requires a > 0.0 && b > 0.0
    ensures a * b > 0.0
  {
  }

  /** A ratio of a part to its positive whole lies in 0..1, and is 1 exactly for the whole. */
  lemma RatioInUnit(n: real, d: real)
    requires 0.0 < d && 0.0 <= n <= d
    ensures 0.0 <= n / d <= 1.0
    ensures n / d == 1.0 <==> n == d
  {
    var t := n / d;
    assert t * d == n;
    if t < 1.0 {
      var u := 1.0 - t;
      MulPos(u, d);
      assert u * d + t * d == d;
      assert u * d + n == d;
    } else {
      assert t == 1.0;
    }
  }

  /** Scaling a ratio in 0..1 by a positive `g` lands in 0..g, reaching g only from 1. */
  lemma ScaleUnit(t: real, g: real)
    requires 0.0 < g && 0.0 <= t <= 1.0
    ensures 0.0 <= t * g <= g
    ensures t * g == g <==> t == 1.0
  {
    if t < 1.0 {
      var u := 1.0 - t;
      MulPos(u, g);
      assert u * g + t * g == g;
    }
    if t > 0.0 {
      MulPos(t, g);
    }
  }

  /**
   * For a coordinate inside the extent, the component lies in 0..gridSize
   * inclusive, and it is gridSize exactly when the coordinate is the maximum.
   */
  lemma CellRange(gridSize: int, p: real, lo: real, hi: real)
    requires gridSize > 0 && lo < hi && lo <= p <= hi
    ensures 0 <= Cell(gridSize, p, lo, hi) <= gridSize
    ensures Cell(gridSize, p, lo, hi) == gridSize <==> p == hi
  {
    var g := gridSize as real;
    var t := (p - lo) / (hi - lo);
    RatioInUnit(p - lo, hi - lo);
    ScaleUnit(t, g);
    assert Cell(gridSize, p, lo, hi) == (t * g).Floor;
  }

  /** A key whose components all lie in 0..gridSize. */
  predicate InCube(k: Grid3D, gridSize: int)
  {
    0 <= k.x <= gridSize && 0 <= k.y <= gridSize && 0 <= k.z <= gridSize
  }

  /** A vertex inside the box maps to a key in the cube 0..gridSize on every axis. */
  lemma PositionInCube(gridSize: int, pos: Vector3, lo: Vector3, hi: Vector3)
    requires gridSize > 0 && NonFlat(lo, hi)
    requires lo.x <= pos.x <= hi.x && lo.y <= pos.y <= hi.y && lo.z <= pos.z <= hi.z
    ensures InCube(PositionToGrid(gridSize, pos, lo, hi), gridSize)
  {
    CellRange(gridSize, pos.x, lo.x, hi.x);
    CellRange(gridSize, pos.y, lo.y, hi.y);
    CellRange(gridSize, pos.z, lo.z, hi.z);
  }

  /** Mixed-radix code of a key in the cube, with radix gridSize + 1. */
  function CubeCode(k: Grid3D, gridSize: int): int
  {
    (k.x * (gridSize + 1) + k.y) * (gridSize + 1) + k.z
  }

  /** Two mixed-radix digits: the leading part and the last digit determine each other. */
  lemma DigitsUnique(m: int, p: int, d: int, q: int, e: int)
    requires m > 0 && 0 <= d < m && 0 <= e < m && p >= 0 && q >= 0
    requires p * m + d == q * m + e
    ensures p == q && d == e
  {
    if p < q {
      MulStep(p, q, m);
    } else if q < p {
      MulStep(q, p, m);
    }
  }

  /** Raising a non-negative multiplier by at least one adds at least one more `m`. */
  lemma MulStep(a: int, b: int, m: int)
    requires 0 <= a < b && m > 0
    ensures a * m + m <= b * m
  {
    var c := b - a;
    assert b * m == a * m + c * m;
    assert c * m == (c - 1) * m + m;
    assert (c - 1) * m >= 0;
  }

  /** Multiplying by a non-negative `m` keeps the order of non-negative factors. */
  lemma MulMono(a: int, b: int, m: int)
    requires 0 <= a <= b && m >= 0
    ensures 0 <= a * m <= b * m
  {
    var c := b - a;
    assert b * m == a * m + c * m;
  }

  /** The code of a key in the cube lies in 0..(gridSize+1)^3 - 1. */
  lemma CubeCodeRange(k: Grid3D, gridSize: int)
    requires gridSize > 0 && InCube(k, gridSize)
    ensures 0 <= CubeCode(k, gridSize) < (gridSize + 1) * (gridSize + 1) * (gridSize + 1)
  {
    var m := gridSize + 1;
    MulMono(k.x, m - 1, m);
    assert (m - 1) * m == m * m - m;
    var a := k.x * m + k.y;
    assert 0 <= a <= m * m - 1;
    MulMono(a, m * m - 1, m);
    assert (m * m - 1) * m == m * m * m - m;
    assert CubeCode(k, gridSize) == a * m + k.z;
  }

  /** Distinct keys in the cube have distinct codes. */
  lemma CubeCodeInjective(a: Grid3D, b: Grid3D, gridSize: int)
    requires gridSize > 0 && InCube(a, gridSize) && InCube(b, gridSize)
    requires CubeCode(a, gridSize) == CubeCode(b, gridSize)
    ensures a == b
  {
    var m := gridSize + 1;
    assert 0 <= a.x * m && 0 <= b.x * m;
    DigitsUnique(m, a.x * m + a.y, a.z, b.x * m + b.y, b.z);
    DigitsUnique(m, a.x, a.y, b.x, b.y);
  }

  /** The integers 0..n-1, as a set. */
  function Range(n: nat): (r: set<int>)
    ensures forall i :: i in r <==> 0 <= i < n
  {
    if n == 0 then {} else Range(n - 1) + {n - 1}
  }

  /** The set 0..n-1 has n elements. */
  lemma {:induction false} RangeCard(n: nat)
    ensures |Range(n)| == n
  {
    if n > 0 {
      RangeCard(n - 1);
    }
  }

  /** The codes of a set of keys in the cube: as many as the keys. */
  lemma {:induction false} CodesCard(s: set<Grid3D>, gridSize: int)
    requires gridSize > 0 && forall k | k in s :: InCube(k, gridSize)
    ensures |set k | k in s :: CubeCode(k, gridSize)| == |s|
    decreases |s|
  {
    if s != {} {
      var k :| k in s;
      var rest := s - {k};
      CodesCard(rest, gridSize);
      var codes := set j | j in s :: CubeCode(j, gridSize);
      var restCodes := set j | j in rest :: CubeCode(j, gridSize);
      assert codes == restCodes + {CubeCode(k, gridSize)};
      if CubeCode(k, gridSize) in restCodes {
        var j :| j in rest && CubeCode(j, gridSize) == CubeCode(k, gridSize);
        CubeCodeInjective(j, k, gridSize);
        assert false;
      }
    }
  }

  /** How many cells the cube 0..gridSize has: gridSize+1 on each axis. */
  function CubeCells(gridSize: int): int
  {
    (gridSize + 1) * (gridSize + 1) * (gridSize + 1)
  }

  /** A set of keys inside the cube has at most (gridSize+1)^3 elements. */
  lemma CubeCard(s: set<Grid3D>, gridSize: int)
    requires gridSize > 0 && forall k | k in s :: InCube(k, gridSize)
    ensures |s| <= CubeCells(gridSize)
  {
    var n := CubeCells(gridSize);
    var codes := set k | k in s :: CubeCode(k, gridSize);
    var range := Range(n);
    CodesCard(s, gridSize);
    RangeCard(n);
    forall c | c in codes ensures c in range {
      var k :| k in s && CubeCode(k, gridSize) == c;
      CubeCodeRange(k, gridSize);
    }
    assert range == codes + (range - codes);
  }
}
