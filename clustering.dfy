/**
 * Grid vertex clustering: every vertex is mapped to a cell of a uniform grid
 * laid over the bounding box, each occupied cell is replaced by the centroid
 * of its vertices, and the faces are re-indexed, dropping collapsed ones.
 */
module Clustering {
  import opened Geometry
  import opened Grid
  import opened MeshModel

  // ----- What the passes compute, as functions of the input -----

  /** The key table of the first pass: entry i is the cell of vertex i. */
  function KeysOf(gridSize: int, vs: seq<Vector3>, lo: Vector3, hi: Vector3): (keys: seq<Grid3D>)
    requires NonFlat(lo, hi)
    ensures |keys| == |vs|
  {
    seq(|vs|, i requires 0 <= i < |vs| => PositionToGrid(gridSize, vs[i], lo, hi))
  }

  /** The occupied cells: the keys that occur in the table. */
  function Occupied(keys: seq<Grid3D>): set<Grid3D>
  {
    set k | k in keys
  }

  /** How many vertices the table maps to cell `k`. */
  function CountIn(keys: seq<Grid3D>, k: Grid3D): (n: nat)
    ensures n <= |keys|
    ensures n > 0 <==> k in keys
    decreases |keys|
  {
    if |keys| == 0 then 0
    else
      var last := |keys| - 1;
      assert keys == keys[..last] + [keys[last]];
      CountIn(keys[..last], k) + (if keys[last] == k then 1 else 0)
  }

  /** The sum, in vertex order, of the positions the table maps to cell `k`. */
  function SumIn(vs: seq<Vector3>, keys: seq<Grid3D>, k: Grid3D): (s: Vector3)
    requires |vs| == |keys|
    ensures k !in keys ==> s == Zero
    decreases |keys|
  {
    if |keys| == 0 then Zero
    else
      var last := |keys| - 1;
      assert keys == keys[..last] + [keys[last]];
      var rest := SumIn(vs[..last], keys[..last], k);
      if keys[last] == k then Add(rest, vs[last]) else rest
  }

  /** The representative of an occupied cell: the mean of the positions mapped to it. */
  function Centroid(vs: seq<Vector3>, keys: seq<Grid3D>, k: Grid3D): Vector3
    requires |vs| == |keys| && k in keys
  {
    DivScalar(SumIn(vs, keys, k), CountIn(keys, k) as real)
  }

  /**
   * `gridToIndex` numbers the cells `keys` densely: it is defined exactly on
   * them and is a bijection onto 0..n-1.
   */
  ghost predicate IsIndexing(keys: set<Grid3D>, gridToIndex: map<Grid3D, int>, n: int)
  {
    && gridToIndex.Keys == keys
    && |keys| == n
    && (forall k | k in gridToIndex :: 0 <= gridToIndex[k] < n)
    && (forall k, k' | k in gridToIndex && k' in gridToIndex && gridToIndex[k] == gridToIndex[k'] :: k == k')
    && (forall j | 0 <= j < n :: j in gridToIndex.Values)
  }

  /** Every corner of `f` has a key in the table, and that key has an output index. */
  predicate Resolves(f: Face, vertexToGrid: seq<Grid3D>, gridToIndex: map<Grid3D, int>)
  {
    && IndicesBelow(f, |vertexToGrid|)
    && vertexToGrid[f.v1] in gridToIndex
    && vertexToGrid[f.v2] in gridToIndex
    && vertexToGrid[f.v3] in gridToIndex
  }

  /** Output indices are never negative. */
  predicate NonNegative(gridToIndex: map<Grid3D, int>)
  {
    forall k | k in gridToIndex :: 0 <= gridToIndex[k]
  }

  /** A face re-indexed through vertex -> key -> output index; its normal starts at zero. */
  function Remapped(f: Face, vertexToGrid: seq<Grid3D>, gridToIndex: map<Grid3D, int>): Face
    requires Resolves(f, vertexToGrid, gridToIndex) && NonNegative(gridToIndex)
  {
    MakeFace(gridToIndex[vertexToGrid[f.v1]],
             gridToIndex[vertexToGrid[f.v2]],
             gridToIndex[vertexToGrid[f.v3]])
  }

  /**
   * The faces the remap pass emits: each input face re-indexed, in input order,
   * keeping only those whose three new corners are pairwise distinct.
   */
  function KeptFaces(faces: seq<Face>, vertexToGrid: seq<Grid3D>, gridToIndex: map<Grid3D, int>): (r: seq<Face>)
    requires forall i | 0 <= i < |faces| :: Resolves(faces[i], vertexToGrid, gridToIndex)
    requires NonNegative(gridToIndex)
    ensures |r| <= |faces|
    ensures forall j | 0 <= j < |r| :: !Degenerate(r[j]) && r[j].normal == Zero
    decreases |faces|
  {
    if |faces| == 0 then []
    else
      var last := |faces| - 1;
      var rest := KeptFaces(faces[..last], vertexToGrid, gridToIndex);
      var f := Remapped(faces[last], vertexToGrid, gridToIndex);
      if !Degenerate(f) then rest + [f] else rest
  }

  /** When every vertex lies in one cell, every re-indexed face collapses and none is kept. */
  lemma {:induction false} KeptFacesOneCell(faces: seq<Face>, vertexToGrid: seq<Grid3D>, gridToIndex: map<Grid3D, int>, cell: Grid3D)
    requires forall i | 0 <= i < |faces| :: Resolves(faces[i], vertexToGrid, gridToIndex)
    requires NonNegative(gridToIndex)
    requires forall i | 0 <= i < |vertexToGrid| :: vertexToGrid[i] == cell
    ensures KeptFaces(faces, vertexToGrid, gridToIndex) == []
    decreases |faces|
  {
    if |faces| > 0 {
      var last := |faces| - 1;
      KeptFacesOneCell(faces[..last], vertexToGrid, gridToIndex, cell);
      var f := faces[last];
      assert vertexToGrid[f.v1] == vertexToGrid[f.v2] == cell;
      assert Degenerate(Remapped(f, vertexToGrid, gridToIndex));
    }
  }

  /** The accumulator maps hold, for every occupied cell, its count and its position sum. */
  ghost predicate Accumulated(vs: seq<Vector3>, keys: seq<Grid3D>,
                              sums: map<Grid3D, Vector3>, counts: map<Grid3D, int>)
    requires |vs| == |keys|
  {
    && sums.Keys == Occupied(keys) && counts.Keys == Occupied(keys)
    && (forall k | k in counts :: counts[k] == CountIn(keys, k))
    && (forall k | k in sums :: sums[k] == SumIn(vs, keys, k))
  }

  /** Accumulating one more vertex (create the cell at zero if new, then add and count) keeps the maps exact. */
  lemma AccumulateStep(vs: seq<Vector3>, keys: seq<Grid3D>,
                       sums: map<Grid3D, Vector3>, counts: map<Grid3D, int>, v: Vector3, grid: Grid3D)
    requires |vs| == |keys| && Accumulated(vs, keys, sums, counts)
    ensures Accumulated(vs + [v], keys + [grid],
                        sums[grid := Add(if grid in sums then sums[grid] else Zero, v)],
                        counts[grid := (if grid in counts then counts[grid] else 0) + 1])
  {
    var vs', keys' := vs + [v], keys + [grid];
    assert vs'[..|vs|] == vs && keys'[..|keys|] == keys;
    assert Occupied(keys') == Occupied(keys) + {grid};
  }

  // ----- The passes of simplify -----

  /**
   * First pass: record each vertex's cell in a table parallel to the vertices,
   * and accumulate per cell the sum of the positions and their number.
   */
  method FirstPass(gridSize: int, vs: seq<Vector3>, lo: Vector3, hi: Vector3)
    returns (vertexToGrid: seq<Grid3D>, gridToVertex: map<Grid3D, Vector3>, gridToCount: map<Grid3D, int>)
    requires NonFlat(lo, hi)
    ensures vertexToGrid == KeysOf(gridSize, vs, lo, hi)
    ensures gridToVertex.Keys == Occupied(vertexToGrid) && gridToCount.Keys == Occupied(vertexToGrid)
    ensures forall k | k in gridToCount :: gridToCount[k] == CountIn(vertexToGrid, k) >= 1
    ensures forall k | k in gridToVertex :: gridToVertex[k] == SumIn(vs, vertexToGrid, k)
  {
    var table := new Grid3D[|vs|];
    gridToVertex, gridToCount := map[], map[];
    for i := 0 to |vs|
      invariant table[..i] == KeysOf(gridSize, vs, lo, hi)[..i]
      invariant Accumulated(vs[..i], table[..i], gridToVertex, gridToCount)
    {
      ghost var before, sums0, counts0 := table[..i], gridToVertex, gridToCount;
      var v := vs[i];
      var grid := PositionToGrid(gridSize, v, lo, hi);
      table[i] := grid;
      assert table[..i + 1] == before + [grid] == KeysOf(gridSize, vs, lo, hi)[..i + 1];
      assert vs[..i + 1] == vs[..i] + [v];

      if grid !in gridToVertex {
        gridToVertex := gridToVertex[grid := Zero];
        gridToCount := gridToCount[grid := 0];
      }
      gridToVertex := gridToVertex[grid := Add(gridToVertex[grid], v)];
      gridToCount := gridToCount[grid := gridToCount[grid] + 1];
      AccumulateStep(vs[..i], before, sums0, counts0, v, grid);
    }
    vertexToGrid := table[..];
    assert vs[..|vs|] == vs && table[..|vs|] == vertexToGrid == KeysOf(gridSize, vs, lo, hi);
    assert Accumulated(vs, vertexToGrid, gridToVertex, gridToCount);
  }

  /** Second pass: divide each cell's accumulated sum by its count, cell by cell, in place. */
  method Average(gridToVertex: map<Grid3D, Vector3>, gridToCount: map<Grid3D, int>)
    returns (averaged: map<Grid3D, Vector3>)
    requires forall k | k in gridToVertex :: k in gridToCount && gridToCount[k] != 0
    ensures averaged.Keys == gridToVertex.Keys
    ensures forall k | k in averaged :: averaged[k] == DivScalar(gridToVertex[k], gridToCount[k] as real)
  {
    averaged := gridToVertex;
    var todo := gridToVertex.Keys;
    while todo != {}
      invariant todo <= gridToVertex.Keys && averaged.Keys == gridToVertex.Keys
      invariant forall k | k in averaged && k !in todo :: averaged[k] == DivScalar(gridToVertex[k], gridToCount[k] as real)
      invariant forall k | k in todo :: averaged[k] == gridToVertex[k]
      decreases todo
    {
      var grid :| grid in todo;
      var count := gridToCount[grid];
      averaged := averaged[grid := DivScalar(averaged[grid], count as real)];
      todo := todo - {grid};
    }
  }

  /**
   * The cells visited so far, in visiting order, are `order`: cell `order[j]` has
   * index j and its representative is `newVertices[j]`.
   */
  ghost predicate Numbered(representatives: map<Grid3D, Vector3>, gridToIndex: map<Grid3D, int>,
                           newVertices: seq<Vector3>, order: seq<Grid3D>)
  {
    && gridToIndex.Keys <= representatives.Keys
    && |order| == |newVertices| == |gridToIndex.Keys|
    && (forall k | k in gridToIndex :: 0 <= gridToIndex[k] < |order| && order[gridToIndex[k]] == k)
    && (forall j | 0 <= j < |order| ::
          order[j] in gridToIndex && gridToIndex[order[j]] == j && newVertices[j] == representatives[order[j]])
  }

  /** Numbering one more cell with the next index and appending its representative keeps `Numbered`. */
  lemma NumberStep(representatives: map<Grid3D, Vector3>, gridToIndex: map<Grid3D, int>,
                   newVertices: seq<Vector3>, order: seq<Grid3D>, grid: Grid3D)
    requires Numbered(representatives, gridToIndex, newVertices, order)
    requires grid in representatives && grid !in gridToIndex
    ensures Numbered(representatives, gridToIndex[grid := |newVertices|],
                     newVertices + [representatives[grid]], order + [grid])
  {
  }

  /** A complete numbering is a dense bijection that places every representative at its index. */
  lemma NumberedIsIndexing(representatives: map<Grid3D, Vector3>, gridToIndex: map<Grid3D, int>,
                           newVertices: seq<Vector3>, order: seq<Grid3D>)
    requires Numbered(representatives, gridToIndex, newVertices, order)
    requires gridToIndex.Keys == representatives.Keys
    ensures IsIndexing(representatives.Keys, gridToIndex, |newVertices|)
    ensures forall k | k in gridToIndex :: newVertices[gridToIndex[k]] == representatives[k]
  {
    forall j | 0 <= j < |newVertices| ensures j in gridToIndex.Values {
      assert gridToIndex[order[j]] == j;
    }
  }

  /**
   * Index assignment: visit the cells in some order, giving each the next
   * output index and appending its representative to the output vertices.
   */
  method AssignIndices(representatives: map<Grid3D, Vector3>)
    returns (gridToIndex: map<Grid3D, int>, newVertices: seq<Vector3>)
    ensures IsIndexing(representatives.Keys, gridToIndex, |newVertices|)
    ensures |newVertices| == |representatives.Keys|
    ensures forall k | k in gridToIndex :: newVertices[gridToIndex[k]] == representatives[k]
  {
    gridToIndex, newVertices := map[], [];
    var todo := representatives.Keys;
    ghost var order: seq<Grid3D> := [];
    while todo != {}
      invariant gridToIndex.Keys + todo == representatives.Keys && gridToIndex.Keys !! todo
      invariant Numbered(representatives, gridToIndex, newVertices, order)
      decreases todo
    {
      var grid :| grid in todo;
      NumberStep(representatives, gridToIndex, newVertices, order, grid);
      gridToIndex := gridToIndex[grid := |newVertices|];
      newVertices := newVertices + [representatives[grid]];
      order := order + [grid];
      todo := todo - {grid};
    }
    NumberedIsIndexing(representatives, gridToIndex, newVertices, order);
  }

  /**
   * Face pass: re-index every face through the key table and the index map, and
   * append it unless two of its new corners coincide.
   */
  method RemapFaces(faces: seq<Face>, vertexToGrid: seq<Grid3D>, gridToIndex: map<Grid3D, int>)
    returns (newFaces: seq<Face>)
    requires forall i | 0 <= i < |faces| :: Resolves(faces[i], vertexToGrid, gridToIndex)
    requires NonNegative(gridToIndex)
    ensures newFaces == KeptFaces(faces, vertexToGrid, gridToIndex)
  {
    newFaces := [];
    for i := 0 to |faces|
      invariant newFaces == KeptFaces(faces[..i], vertexToGrid, gridToIndex)
    {
      assert faces[..i + 1][..i] == faces[..i];
      var face := faces[i];
      var v1 := gridToIndex[vertexToGrid[face.v1]];
      var v2 := gridToIndex[vertexToGrid[face.v2]];
      var v3 := gridToIndex[vertexToGrid[face.v3]];
      if v1 != v2 && v2 != v3 && v3 != v1 {
        newFaces := newFaces + [MakeFace(v1, v2, v3)];
      }
    }
    assert faces[..|faces|] == faces;
  }

  // ----- Properties of the passes -----

  /** There are no more occupied cells than vertices. */
  lemma {:induction false} OccupiedCard(keys: seq<Grid3D>)
    ensures |Occupied(keys)| <= |keys|
    decreases |keys|
  {
    if |keys| > 0 {
      var last := |keys| - 1;
      OccupiedCard(keys[..last]);
      assert keys == keys[..last] + [keys[last]];
      assert Occupied(keys) == Occupied(keys[..last]) + {keys[last]};
    }
  }

  /** `n` copies of `a` added up. */
  function Copies(a: real, n: nat): real
  {
    if n == 0 then 0.0 else Copies(a, n - 1) + a
  }

  /** Adding up `n` copies of `a` is multiplying `a` by `n`. */
  lemma {:induction false} CopiesIsProduct(a: real, n: nat)
    ensures Copies(a, n) == n as real * a
  {
    if n > 0 {
      CopiesIsProduct(a, n - 1);
      assert n as real * a == (n - 1) as real * a + a;
    }
  }

  /** If every vertex of cell `k` lies in a box, the cell's sum lies between count-many copies of the corners. */
  lemma {:induction false} SumBounds(vs: seq<Vector3>, keys: seq<Grid3D>, k: Grid3D, lo: Vector3, hi: Vector3)
    requires |vs| == |keys|
    requires forall i | 0 <= i < |vs| && keys[i] == k :: Within(vs[i], lo, hi)
    ensures var s, c := SumIn(vs, keys, k), CountIn(keys, k);
      && Copies(lo.x, c) <= s.x <= Copies(hi.x, c)
      && Copies(lo.y, c) <= s.y <= Copies(hi.y, c)
      && Copies(lo.z, c) <= s.z <= Copies(hi.z, c)
    decreases |keys|
  {
    if |keys| > 0 {
      var last := |keys| - 1;
      SumBounds(vs[..last], keys[..last], k, lo, hi);
    }
  }

  /** A value between `c * lo` and `c * hi`, divided by a positive `c`, lies between `lo` and `hi`. */
  lemma DivBetween(s: real, c: real, lo: real, hi: real)
    requires c > 0.0 && c * lo <= s <= c * hi
    ensures lo <= s / c <= hi
  {
    assert (s / c) * c == s;
  }

  /** The mean of `n` values that lie between `lo` and `hi` lies between them too. */
  lemma MeanBetween(s: real, n: nat, lo: real, hi: real)
    requires n > 0 && Copies(lo, n) <= s <= Copies(hi, n)
    ensures lo <= s / n as real <= hi
  {
    CopiesIsProduct(lo, n);
    CopiesIsProduct(hi, n);
    DivBetween(s, n as real, lo, hi);
  }

  /** A cell's representative lies in every box that holds all of the cell's vertices. */
  lemma CentroidWithin(vs: seq<Vector3>, keys: seq<Grid3D>, k: Grid3D, lo: Vector3, hi: Vector3)
    requires |vs| == |keys| && k in keys
    requires forall i | 0 <= i < |vs| && keys[i] == k :: Within(vs[i], lo, hi)
    ensures Within(Centroid(vs, keys, k), lo, hi)
  {
    SumBounds(vs, keys, k, lo, hi);
    var s, n := SumIn(vs, keys, k), CountIn(keys, k);
    MeanBetween(s.x, n, lo.x, hi.x);
    MeanBetween(s.y, n, lo.y, hi.y);
    MeanBetween(s.z, n, lo.z, hi.z);
  }

  /** The sum of a cell that holds exactly one vertex is that vertex. */
  lemma {:induction false} SumOfSingle(vs: seq<Vector3>, keys: seq<Grid3D>, k: Grid3D, i: nat)
    requires |vs| == |keys| && i < |keys| && keys[i] == k && CountIn(keys, k) == 1
    ensures SumIn(vs, keys, k) == vs[i]
    decreases |keys|
  {
    var last := |keys| - 1;
    if i == last {
      assert CountIn(keys[..last], k) == 0;
    } else {
      assert keys[..last][i] == k;
      SumOfSingle(vs[..last], keys[..last], k, i);
    }
  }

  /** A cell that holds exactly one vertex is represented by that vertex's own position. */
  lemma CentroidOfSingle(vs: seq<Vector3>, keys: seq<Grid3D>, k: Grid3D, i: nat)
    requires |vs| == |keys| && i < |keys| && keys[i] == k && CountIn(keys, k) == 1
    ensures Centroid(vs, keys, k) == vs[i]
  {
    SumOfSingle(vs, keys, k, i);
  }

  /**
   * The remap pass is a filter: the output faces are, in input order, exactly the
   * re-indexed input faces at the positions `idx`, and an input face is kept
   * if and only if its re-indexed corners are pairwise distinct.
   */
  lemma {:induction false} KeptFacesIsFilter(faces: seq<Face>, vertexToGrid: seq<Grid3D>, gridToIndex: map<Grid3D, int>)
    returns (idx: seq<nat>)
    requires forall i | 0 <= i < |faces| :: Resolves(faces[i], vertexToGrid, gridToIndex)
    requires NonNegative(gridToIndex)
    ensures |idx| == |KeptFaces(faces, vertexToGrid, gridToIndex)|
    ensures forall j | 0 <= j < |idx| ::
      idx[j] < |faces| && KeptFaces(faces, vertexToGrid, gridToIndex)[j] == Remapped(faces[idx[j]], vertexToGrid, gridToIndex)
    ensures forall j, j' | 0 <= j < j' < |idx| :: idx[j] < idx[j']
    ensures forall i | 0 <= i < |faces| :: i in idx <==> !Degenerate(Remapped(faces[i], vertexToGrid, gridToIndex))
    decreases |faces|
  {
    if |faces| == 0 {
      return [];
    }
    var last := |faces| - 1;
    var prefix := faces[..last];
    var rest := KeptFacesIsFilter(prefix, vertexToGrid, gridToIndex);
    assert forall i | 0 <= i < last :: prefix[i] == faces[i];
    if !Degenerate(Remapped(faces[last], vertexToGrid, gridToIndex)) {
      idx := rest + [last];
    } else {
      idx := rest;
    }
  }

  /** With every output index below `n`, every corner of every kept face is below `n`. */
  lemma KeptFacesInRange(faces: seq<Face>, vertexToGrid: seq<Grid3D>, gridToIndex: map<Grid3D, int>, n: int)
    requires forall i | 0 <= i < |faces| :: Resolves(faces[i], vertexToGrid, gridToIndex)
    requires NonNegative(gridToIndex)
    requires forall k | k in gridToIndex :: gridToIndex[k] < n
    ensures forall j | 0 <= j < |KeptFaces(faces, vertexToGrid, gridToIndex)| ::
      IndicesBelow(KeptFaces(faces, vertexToGrid, gridToIndex)[j], n)
  {
    var idx := KeptFacesIsFilter(faces, vertexToGrid, gridToIndex);
  }
}
