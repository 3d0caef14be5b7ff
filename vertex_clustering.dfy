/**
 * The decimation engine: `VertexClustering` holds the grid resolution and
 * `Simplify` runs the passes over a mesh, producing a new mesh.
 */
module Engine {
  import opened Geometry
  import opened Grid
  import opened MeshModel
  import opened Clustering

  /**
   * What `simplify` relies on without checking it: at least one vertex, face
   * corners that index the vertices, and a bounding box that is not flat along
   * any axis. Any resolution is accepted.
   */
  predicate CanSimplify(gridSize: int, vs: seq<Vector3>, faces: seq<Face>)
  {
    && |vs| > 0
    && (forall i | 0 <= i < |faces| :: IndicesBelow(faces[i], |vs|))
    && NonFlat(BoxMin(vs), BoxMax(vs))
  }

  /** The key table of the input: each vertex's cell in the grid over its own bounding box. */
  function CellKeys(gridSize: int, vs: seq<Vector3>): (keys: seq<Grid3D>)
    requires |vs| > 0 && NonFlat(BoxMin(vs), BoxMax(vs))
    ensures |keys| == |vs|
  {
    KeysOf(gridSize, vs, BoxMin(vs), BoxMax(vs))
  }

  /** Every face corner's key is occupied, so a numbering of the occupied cells resolves it. */
  lemma {:induction false} CornersResolve(faces: seq<Face>, keys: seq<Grid3D>, gridToIndex: map<Grid3D, int>)
    requires forall i | 0 <= i < |faces| :: IndicesBelow(faces[i], |keys|)
    requires gridToIndex.Keys == Occupied(keys)
    ensures forall i | 0 <= i < |faces| :: Resolves(faces[i], keys, gridToIndex)
  {
    forall i | 0 <= i < |faces| ensures Resolves(faces[i], keys, gridToIndex) {
      var f := faces[i];
      assert keys[f.v1] in keys && keys[f.v2] in keys && keys[f.v3] in keys;
    }
  }

  /**
   * `outV`/`outF` is what the passes produce for the key table `keys` when the
   * cells are numbered by `gridToIndex`.
   */
  ghost predicate ResultFor(vs: seq<Vector3>, faces: seq<Face>, keys: seq<Grid3D>,
                            gridToIndex: map<Grid3D, int>, outV: seq<Vector3>, outF: seq<Face>)
    requires |keys| == |vs|
    requires forall i | 0 <= i < |faces| :: IndicesBelow(faces[i], |keys|)
  {
    && Represents(vs, keys, gridToIndex, outV)
    && (forall i | 0 <= i < |faces| :: Resolves(faces[i], keys, gridToIndex))
    && outF == KeptFaces(faces, keys, gridToIndex)
  }

  /**
   * `outV`/`outF` is a vertex-clustering of the input: for SOME dense numbering
   * of the occupied cells, the output vertices are the cell centroids in that
   * order and the output faces are the surviving re-indexed input faces.
   */
  ghost predicate Clusters(gridSize: int, vs: seq<Vector3>, faces: seq<Face>, outV: seq<Vector3>, outF: seq<Face>)
    requires CanSimplify(gridSize, vs, faces)
  {
    exists gridToIndex :: ResultFor(vs, faces, CellKeys(gridSize, vs), gridToIndex, outV, outF)
  }

  /** The numbering the passes chose witnesses that their output is a clustering. */
  lemma {:induction false} ResultIsClustering(gridSize: int, vs: seq<Vector3>, faces: seq<Face>,
                           gridToIndex: map<Grid3D, int>, outV: seq<Vector3>, outF: seq<Face>)
    requires CanSimplify(gridSize, vs, faces)
    requires Represents(vs, CellKeys(gridSize, vs), gridToIndex, outV)
    requires forall i | 0 <= i < |faces| :: Resolves(faces[i], CellKeys(gridSize, vs), gridToIndex)
    requires outF == KeptFaces(faces, CellKeys(gridSize, vs), gridToIndex)
    ensures Clusters(gridSize, vs, faces, outV, outF)
  {
    assert ResultFor(vs, faces, CellKeys(gridSize, vs), gridToIndex, outV, outF);
  }

  /** Every key of the input lies in the cube 0..gridSize on each axis. */
  lemma {:induction false} KeysInCube(gridSize: int, vs: seq<Vector3>, faces: seq<Face>)
    requires gridSize > 0 && CanSimplify(gridSize, vs, faces)
    ensures forall k | k in Occupied(CellKeys(gridSize, vs)) :: InCube(k, gridSize)
  {
    var lo, hi := BoxMin(vs), BoxMax(vs);
    BoxIsBoundingBox(vs);
    var keys := CellKeys(gridSize, vs);
    forall k | k in Occupied(keys) ensures InCube(k, gridSize) {
      var i :| 0 <= i < |keys| && keys[i] == k;
      PositionInCube(gridSize, vs[i], lo, hi);
    }
  }

  /**
   * How many vertices a clustering result has: one per occupied cell, so no
   * more than the input vertices and, for a positive resolution, no more than
   * (gridSize+1)^3.
   */
  lemma {:induction false} ClustersCounts(gridSize: int, vs: seq<Vector3>, faces: seq<Face>, outV: seq<Vector3>, outF: seq<Face>)
    requires CanSimplify(gridSize, vs, faces)
    requires Clusters(gridSize, vs, faces, outV, outF)
    ensures |outV| == |Occupied(CellKeys(gridSize, vs))|
    ensures |outV| <= |vs|
    ensures gridSize > 0 ==> |outV| <= CubeCells(gridSize)
  {
    var keys := CellKeys(gridSize, vs);
    var gridToIndex :| ResultFor(vs, faces, keys, gridToIndex, outV, outF);
    OccupiedCard(keys);
    if gridSize > 0 {
      KeysInCube(gridSize, vs, faces);
      CubeCard(Occupied(keys), gridSize);
    }
  }

  /**
   * The faces of a clustering result: no more than the input's, every corner a
   * valid output index, none degenerate.
   */
  lemma {:induction false} ClustersFaces(gridSize: int, vs: seq<Vector3>, faces: seq<Face>, outV: seq<Vector3>, outF: seq<Face>)
    requires CanSimplify(gridSize, vs, faces)
    requires Clusters(gridSize, vs, faces, outV, outF)
    ensures |outF| <= |faces|
    ensures forall j | 0 <= j < |outF| :: IndicesBelow(outF[j], |outV|) && !Degenerate(outF[j])
  {
    var keys := CellKeys(gridSize, vs);
    var gridToIndex :| ResultFor(vs, faces, keys, gridToIndex, outV, outF);
    KeptFacesInRange(faces, keys, gridToIndex, |outV|);
  }

  /** Every representative of a clustering result lies inside the input's bounding box. */
  lemma {:induction false} ClustersEnclosed(gridSize: int, vs: seq<Vector3>, faces: seq<Face>, outV: seq<Vector3>, outF: seq<Face>)
    requires CanSimplify(gridSize, vs, faces)
    requires Clusters(gridSize, vs, faces, outV, outF)
    ensures Encloses(outV, BoxMin(vs), BoxMax(vs))
  {
    var keys := CellKeys(gridSize, vs);
    var gridToIndex :| ResultFor(vs, faces, keys, gridToIndex, outV, outF);
    var lo, hi := BoxMin(vs), BoxMax(vs);
    BoxIsBoundingBox(vs);
    forall j | 0 <= j < |outV| ensures Within(outV[j], lo, hi) {
      assert j in gridToIndex.Values;
      var k :| k in gridToIndex && gridToIndex[k] == j;
      CentroidWithin(vs, keys, k, lo, hi);
    }
  }

  /**
   * `outV` holds the centroid of every occupied cell of `keys` at the index
   * `gridToIndex` gives it, the numbering being dense.
   */
  ghost predicate Represents(vs: seq<Vector3>, keys: seq<Grid3D>, gridToIndex: map<Grid3D, int>, outV: seq<Vector3>)
    requires |keys| == |vs|
  {
    && IsIndexing(Occupied(keys), gridToIndex, |outV|)
    && (forall k | k in gridToIndex :: outV[gridToIndex[k]] == Centroid(vs, keys, k))
  }

  /** No two cells share an index. */
  ghost predicate Injective(gridToIndex: map<Grid3D, int>)
  {
    forall k, k' | k in gridToIndex && k' in gridToIndex && gridToIndex[k] == gridToIndex[k'] :: k == k'
  }

  /** `pi` renumbers 0..n-1: it is defined exactly there, maps into 0..n-1 and is injective. */
  ghost predicate IsRenumbering(pi: map<int, int>, n: int)
  {
    && (forall i :: i in pi <==> 0 <= i < n)
    && (forall i | i in pi :: 0 <= pi[i] < n)
    && (forall i, i' | i in pi && i' in pi && pi[i] == pi[i'] :: i == i')
  }

  /** `faces2` is `faces1` face by face, with every corner index renumbered by `pi`. */
  ghost predicate FacesRenumbered(pi: map<int, int>, faces1: seq<Face>, faces2: seq<Face>)
  {
    && |faces1| == |faces2|
    && forall j | 0 <= j < |faces1| ::
         && faces1[j].v1 in pi && faces1[j].v2 in pi && faces1[j].v3 in pi
         && faces2[j].v1 == pi[faces1[j].v1] && faces2[j].v2 == pi[faces1[j].v2] && faces2[j].v3 == pi[faces1[j].v3]
         && faces2[j].normal == faces1[j].normal
  }

  /**
   * Two dense numberings of the same occupied cells are related by the
   * renumbering that sends a cell's first index to its second, and that
   * renumbering carries one vertex sequence onto the other.
   */
  lemma {:induction false} NumberingsRenumber(vs: seq<Vector3>, keys: seq<Grid3D>,
                           gridToIndex1: map<Grid3D, int>, outV1: seq<Vector3>,
                           gridToIndex2: map<Grid3D, int>, outV2: seq<Vector3>)
    returns (pi: map<int, int>)
    requires |keys| == |vs|
    requires Represents(vs, keys, gridToIndex1, outV1) && Represents(vs, keys, gridToIndex2, outV2)
    ensures |outV1| == |outV2|
    ensures IsRenumbering(pi, |outV1|)
    ensures forall i | 0 <= i < |outV1| :: outV2[pi[i]] == outV1[i]
    ensures forall k | k in gridToIndex1 :: gridToIndex1[k] in pi && pi[gridToIndex1[k]] == gridToIndex2[k]
  {
    pi := map k | k in gridToIndex1 :: gridToIndex1[k] := gridToIndex2[k];
    forall k | k in gridToIndex1 ensures gridToIndex1[k] in pi && pi[gridToIndex1[k]] == gridToIndex2[k] {
      var i := gridToIndex1[k];
      var k' :| k' in gridToIndex1 && gridToIndex1[k'] == i && pi[i] == gridToIndex2[k'];
    }
    forall i | 0 <= i < |outV1| ensures i in pi && outV2[pi[i]] == outV1[i] {
      assert i in gridToIndex1.Values;
      var k :| k in gridToIndex1 && gridToIndex1[k] == i;
    }
  }

  /**
   * One input face under two numberings related by `pi`: it collapses under one
   * exactly when it collapses under the other, and otherwise its corners are renumbered by `pi`.
   */
  lemma {:induction false} FaceRenumbered(keys: seq<Grid3D>, f: Face, gridToIndex1: map<Grid3D, int>, gridToIndex2: map<Grid3D, int>,
                       pi: map<int, int>)
    requires Resolves(f, keys, gridToIndex1) && Resolves(f, keys, gridToIndex2)
    requires NonNegative(gridToIndex1) && NonNegative(gridToIndex2)
    requires Injective(gridToIndex1) && Injective(gridToIndex2)
    requires gridToIndex2.Keys == gridToIndex1.Keys
    requires forall k | k in gridToIndex1 :: gridToIndex1[k] in pi && pi[gridToIndex1[k]] == gridToIndex2[k]
    ensures Degenerate(Remapped(f, keys, gridToIndex1)) <==> Degenerate(Remapped(f, keys, gridToIndex2))
    ensures FacesRenumbered(pi, [Remapped(f, keys, gridToIndex1)], [Remapped(f, keys, gridToIndex2)])
  {
    var a, b, c := keys[f.v1], keys[f.v2], keys[f.v3];
    assert Degenerate(Remapped(f, keys, gridToIndex1)) <==> (a == b || b == c || c == a);
    assert Degenerate(Remapped(f, keys, gridToIndex2)) <==> (a == b || b == c || c == a);
  }

  /** Renumbering is preserved by concatenating face lists. */
  lemma {:induction false} FacesRenumberedAppend(pi: map<int, int>, a1: seq<Face>, b1: seq<Face>, a2: seq<Face>, b2: seq<Face>)
    requires FacesRenumbered(pi, a1, a2) && FacesRenumbered(pi, b1, b2)
    ensures FacesRenumbered(pi, a1 + b1, a2 + b2)
  {
    forall j | |a1| <= j < |a1 + b1|
      ensures (a1 + b1)[j] == b1[j - |a1|] && (a2 + b2)[j] == b2[j - |a1|]
    {
    }
  }

  /**
   * Two numberings related by `pi` keep the same input faces, and each kept
   * face of the second is the matching kept face of the first renumbered by `pi`.
   */
  lemma {:induction false} KeptFacesRenumbered(faces: seq<Face>, keys: seq<Grid3D>,
                                               gridToIndex1: map<Grid3D, int>, gridToIndex2: map<Grid3D, int>,
                                               pi: map<int, int>)
    requires forall i | 0 <= i < |faces| :: Resolves(faces[i], keys, gridToIndex1) && Resolves(faces[i], keys, gridToIndex2)
    requires NonNegative(gridToIndex1) && NonNegative(gridToIndex2)
    requires Injective(gridToIndex1) && Injective(gridToIndex2)
    requires gridToIndex2.Keys == gridToIndex1.Keys
    requires forall k | k in gridToIndex1 :: gridToIndex1[k] in pi && pi[gridToIndex1[k]] == gridToIndex2[k]
    ensures FacesRenumbered(pi, KeptFaces(faces, keys, gridToIndex1), KeptFaces(faces, keys, gridToIndex2))
    decreases |faces|
  {
    if |faces| > 0 {
      var last := |faces| - 1;
      var init := faces[..last];
      KeptFacesRenumbered(init, keys, gridToIndex1, gridToIndex2, pi);
      var f1, f2 := Remapped(faces[last], keys, gridToIndex1), Remapped(faces[last], keys, gridToIndex2);
      FaceRenumbered(keys, faces[last], gridToIndex1, gridToIndex2, pi);
      if !Degenerate(f1) {
        FacesRenumberedAppend(pi, KeptFaces(init, keys, gridToIndex1), [f1], KeptFaces(init, keys, gridToIndex2), [f2]);
      }
    }
  }

  /** Every position in `outV1` is a centroid that `outV2` holds too. */
  lemma {:induction false} VerticesAgree(vs: seq<Vector3>, keys: seq<Grid3D>,
                      gridToIndex1: map<Grid3D, int>, outV1: seq<Vector3>,
                      gridToIndex2: map<Grid3D, int>, outV2: seq<Vector3>)
    requires |keys| == |vs|
    requires Represents(vs, keys, gridToIndex1, outV1) && Represents(vs, keys, gridToIndex2, outV2)
    ensures forall v | v in outV1 :: v in outV2
  {
    forall v | v in outV1 ensures v in outV2 {
      var j :| 0 <= j < |outV1| && outV1[j] == v;
      assert j in gridToIndex1.Values;
      var k :| k in gridToIndex1 && gridToIndex1[k] == j;
      assert outV2[gridToIndex2[k]] == v;
    }
  }

  /** Two sequences that contain each other's elements have the same set of elements. */
  lemma {:induction false} SameElements(a: seq<Vector3>, b: seq<Vector3>)
    requires forall v | v in a :: v in b
    requires forall v | v in b :: v in a
    ensures (set v | v in a) == (set v | v in b)
  {
  }

  /**
   * Two results for the same input and resolution differ only in the numbering
   * of the cells: one renumbering `pi` of 0..n-1 carries the first vertex
   * sequence onto the second and the first face list, index by index, onto the
   * second. In particular both have the same vertices, as a set, and the same
   * number of faces.
   */
  lemma {:induction false} ClusteringDeterministic(gridSize: int, vs: seq<Vector3>, faces: seq<Face>,
                                outV1: seq<Vector3>, outF1: seq<Face>, outV2: seq<Vector3>, outF2: seq<Face>)
    returns (pi: map<int, int>)
    requires CanSimplify(gridSize, vs, faces)
    requires Clusters(gridSize, vs, faces, outV1, outF1)
    requires Clusters(gridSize, vs, faces, outV2, outF2)
    ensures |outV1| == |outV2| && |outF1| == |outF2|
    ensures IsRenumbering(pi, |outV1|)
    ensures forall i | 0 <= i < |outV1| :: outV2[pi[i]] == outV1[i]
    ensures FacesRenumbered(pi, outF1, outF2)
    ensures (set v | v in outV1) == (set v | v in outV2)
  {
    var keys := CellKeys(gridSize, vs);
    var gridToIndex1 :| ResultFor(vs, faces, keys, gridToIndex1, outV1, outF1);
    var gridToIndex2 :| ResultFor(vs, faces, keys, gridToIndex2, outV2, outF2);
    pi := NumberingsRenumber(vs, keys, gridToIndex1, outV1, gridToIndex2, outV2);
    KeptFacesRenumbered(faces, keys, gridToIndex1, gridToIndex2, pi);
    VerticesAgree(vs, keys, gridToIndex1, outV1, gridToIndex2, outV2);
    VerticesAgree(vs, keys, gridToIndex2, outV2, gridToIndex1, outV1);
    SameElements(outV1, outV2);
  }

  /**
   * The maps the passes leave behind: the averaged sums, numbered by
   * `gridToIndex`, put the centroid of each occupied cell at its index.
   */
  lemma {:induction false} PassesRepresent(vs: seq<Vector3>, keys: seq<Grid3D>,
                        gridToVertex: map<Grid3D, Vector3>, gridToCount: map<Grid3D, int>,
                        averaged: map<Grid3D, Vector3>, gridToIndex: map<Grid3D, int>, newVertices: seq<Vector3>)
    requires |keys| == |vs|
    requires gridToVertex.Keys == Occupied(keys) && gridToCount.Keys == Occupied(keys)
    requires forall k | k in gridToCount :: gridToCount[k] == CountIn(keys, k) >= 1
    requires forall k | k in gridToVertex :: gridToVertex[k] == SumIn(vs, keys, k)
    requires averaged.Keys == gridToVertex.Keys
    requires forall k | k in averaged :: averaged[k] == DivScalar(gridToVertex[k], gridToCount[k] as real)
    requires IsIndexing(averaged.Keys, gridToIndex, |newVertices|)
    requires forall k | k in gridToIndex :: newVertices[gridToIndex[k]] == averaged[k]
    ensures Represents(vs, keys, gridToIndex, newVertices)
  {
  }

  /** The grid decimation engine: one resolution, fixed at construction. */
  class VertexClustering {
    const gridSize: int

    /** Stores the resolution as given; nothing is checked here. */
    constructor(gridSize: int)
      ensures this.gridSize == gridSize
    {
      this.gridSize := gridSize;
    }

    /**
     * `simplify`: a new mesh holding one centroid per occupied cell and the input
     * faces re-indexed through the cells, collapsed faces dropped. The input mesh
     * is only read.
     */
    method Simplify(inputMesh: Mesh) returns (simplifiedMesh: Mesh)
      requires CanSimplify(gridSize, inputMesh.vertices, inputMesh.faces)
      ensures fresh(simplifiedMesh)
      ensures Clusters(gridSize, inputMesh.vertices, inputMesh.faces, simplifiedMesh.vertices, simplifiedMesh.faces)
      ensures |simplifiedMesh.vertices| <= |inputMesh.vertices|
      ensures gridSize > 0 ==> |simplifiedMesh.vertices| <= CubeCells(gridSize)
      ensures |simplifiedMesh.faces| <= |inputMesh.faces|
      ensures simplifiedMesh.FacesValid()
      ensures forall j | 0 <= j < |simplifiedMesh.faces| :: !Degenerate(simplifiedMesh.faces[j])
    {
      var inputVertices := inputMesh.GetVertices();
      var inputFaces := inputMesh.GetFaces();
      var newVertices, newFaces := Passes(inputVertices, inputFaces);

      simplifiedMesh := new Mesh();
      simplifiedMesh.SetVertices(newVertices);
      simplifiedMesh.SetFaces(newFaces);
      assert simplifiedMesh.vertices == newVertices && simplifiedMesh.faces == newFaces;
      ClustersCounts(gridSize, inputVertices, inputFaces, newVertices, newFaces);
      ClustersFaces(gridSize, inputVertices, inputFaces, newVertices, newFaces);
    }

    /**
     * The body of `simplify` between reading the input and building the output:
     * bounding box, first pass, averaging, numbering, face remapping.
     */
    method Passes(inputVertices: seq<Vector3>, inputFaces: seq<Face>) returns (newVertices: seq<Vector3>, newFaces: seq<Face>)
      requires CanSimplify(gridSize, inputVertices, inputFaces)
      ensures Clusters(gridSize, inputVertices, inputFaces, newVertices, newFaces)
    {
      var min, max := BoundsOf(inputVertices);
      var vertexToGrid, gridToVertex, gridToCount := FirstPass(gridSize, inputVertices, min, max);
      ghost var sums := gridToVertex;
      gridToVertex := Average(gridToVertex, gridToCount);
      var gridToIndex;
      gridToIndex, newVertices := AssignIndices(gridToVertex);

      // every corner's cell is occupied, so each lookup finds an index
      CornersResolve(inputFaces, vertexToGrid, gridToIndex);
      newFaces := RemapFaces(inputFaces, vertexToGrid, gridToIndex);

      PassesRepresent(inputVertices, vertexToGrid, sums, gridToCount, gridToVertex, gridToIndex, newVertices);
      ResultIsClustering(gridSize, inputVertices, inputFaces, gridToIndex, newVertices, newFaces);
    }
  }

  /**
   * A vertex on the maximum face of the box gets key component gridSize, so
   * with gridSize 1 the four corners of a unit tetrahedron occupy four cells,
   * more than gridSize^3 = 1.
   */
  lemma OnMaxCellsExceedGridCube()
    ensures var vs := [Vector3(0.0, 0.0, 0.0), Vector3(1.0, 0.0, 0.0), Vector3(0.0, 1.0, 0.0), Vector3(0.0, 0.0, 1.0)];
      && CanSimplify(1, vs, [])
      && |Occupied(CellKeys(1, vs))| == 4
  {
    var vs := [Vector3(0.0, 0.0, 0.0), Vector3(1.0, 0.0, 0.0), Vector3(0.0, 1.0, 0.0), Vector3(0.0, 0.0, 1.0)];
    assert vs[..2][..1] == vs[..1] && vs[..3][..2] == vs[..2];
    assert BoxMin(vs[..1]) == vs[0] && BoxMax(vs[..1]) == vs[0];
    assert BoxMin(vs[..2]) == Vector3(0.0, 0.0, 0.0) && BoxMax(vs[..2]) == Vector3(1.0, 0.0, 0.0);
    assert BoxMin(vs[..3]) == Vector3(0.0, 0.0, 0.0) && BoxMax(vs[..3]) == Vector3(1.0, 1.0, 0.0);
    assert BoxMin(vs) == Vector3(0.0, 0.0, 0.0) && BoxMax(vs) == Vector3(1.0, 1.0, 1.0);
    var keys := CellKeys(1, vs);
    assert keys == [Grid3D(0, 0, 0), Grid3D(1, 0, 0), Grid3D(0, 1, 0), Grid3D(0, 0, 1)];
    assert Occupied(keys) == {Grid3D(0, 0, 0), Grid3D(1, 0, 0), Grid3D(0, 1, 0), Grid3D(0, 0, 1)};
  }

  /**
   * A single flat triangle (all corners at z = 0) has a flat bounding box, so
   * `simplify` would divide by a zero extent: it is outside what the model accepts.
   */
  lemma FlatTriangleExcluded()
    ensures !CanSimplify(1, [Vector3(0.0, 0.0, 0.0), Vector3(1.0, 0.0, 0.0), Vector3(0.0, 1.0, 0.0)], [MakeFace(0, 1, 2)])
  {
    var vs := [Vector3(0.0, 0.0, 0.0), Vector3(1.0, 0.0, 0.0), Vector3(0.0, 1.0, 0.0)];
    assert vs[..2][..1] == vs[..1];
    assert BoxMin(vs[..1]).z == 0.0 && BoxMax(vs[..1]).z == 0.0;
    assert BoxMin(vs[..2]).z == 0.0 && BoxMax(vs[..2]).z == 0.0;
    assert BoxMin(vs).z == BoxMax(vs).z;
  }

  /** With resolution 0 every scaled coordinate is 0, so every vertex falls in cell (0,0,0). */
  lemma {:induction false} ZeroGridOneCell(vs: seq<Vector3>)
    requires |vs| > 0 && NonFlat(BoxMin(vs), BoxMax(vs))
    ensures forall i | 0 <= i < |vs| :: CellKeys(0, vs)[i] == Grid3D(0, 0, 0)
    ensures Occupied(CellKeys(0, vs)) == {Grid3D(0, 0, 0)}
  {
    var keys := CellKeys(0, vs);
    assert forall i | 0 <= i < |keys| :: keys[i] == Grid3D(0, 0, 0);
    assert keys[0] in keys;
  }

  /** With resolution 0 the result has a single vertex and, every face collapsing, no face. */
  lemma {:induction false} ZeroGridCollapses(vs: seq<Vector3>, faces: seq<Face>, outV: seq<Vector3>, outF: seq<Face>)
    requires CanSimplify(0, vs, faces)
    requires Clusters(0, vs, faces, outV, outF)
    ensures |outV| == 1 && outF == []
  {
    ZeroGridOneCell(vs);
    ClustersCounts(0, vs, faces, outV, outF);
    var keys := CellKeys(0, vs);
    var gridToIndex :| ResultFor(vs, faces, keys, gridToIndex, outV, outF);
    KeptFacesOneCell(faces, keys, gridToIndex, Grid3D(0, 0, 0));
  }

  /**
   * A coarser grid can give more cells than a finer one, because the cell
   * boundaries of different resolutions do not nest: four vertices occupy four
   * cells at resolution 2 and three cells at resolution 3.
   */
  lemma CoarserGridMoreCells()
    ensures var vs := [Vector3(0.0, 0.0, 0.0), Vector3(0.4, 0.4, 0.5), Vector3(0.6, 0.6, 0.5), Vector3(1.0, 1.0, 1.0)];
      && CanSimplify(2, vs, []) && CanSimplify(3, vs, [])
      && |Occupied(CellKeys(2, vs))| == 4
      && |Occupied(CellKeys(3, vs))| == 3
  {
    var vs := [Vector3(0.0, 0.0, 0.0), Vector3(0.4, 0.4, 0.5), Vector3(0.6, 0.6, 0.5), Vector3(1.0, 1.0, 1.0)];
    assert vs[..2][..1] == vs[..1] && vs[..3][..2] == vs[..2];
    assert BoxMin(vs[..1]) == vs[0] && BoxMax(vs[..1]) == vs[0];
    assert BoxMin(vs[..2]) == Vector3(0.0, 0.0, 0.0) && BoxMax(vs[..2]) == Vector3(0.4, 0.4, 0.5);
    assert BoxMin(vs[..3]) == Vector3(0.0, 0.0, 0.0) && BoxMax(vs[..3]) == Vector3(0.6, 0.6, 0.5);
    assert BoxMin(vs) == Vector3(0.0, 0.0, 0.0) && BoxMax(vs) == Vector3(1.0, 1.0, 1.0);
    var keys2, keys3 := CellKeys(2, vs), CellKeys(3, vs);
    assert keys2 == [Grid3D(0, 0, 0), Grid3D(0, 0, 1), Grid3D(1, 1, 1), Grid3D(2, 2, 2)];
    assert Occupied(keys2) == {Grid3D(0, 0, 0), Grid3D(0, 0, 1), Grid3D(1, 1, 1), Grid3D(2, 2, 2)};
    assert keys3 == [Grid3D(0, 0, 0), Grid3D(1, 1, 1), Grid3D(1, 1, 1), Grid3D(3, 3, 3)];
    assert Occupied(keys3) == {Grid3D(0, 0, 0), Grid3D(1, 1, 1), Grid3D(3, 3, 3)};
  }
}
