# Grid vertex-clustering mesh decimation, modelled in Dafny

This project models the decimation core of a small triangle-mesh simplifier.
The engine `VertexClustering` lays a uniform grid of `gridSize` cells per axis
over the bounding box of a mesh. It maps every vertex to the key (`Grid3D`)
of the cell that contains it. Each occupied cell is replaced by the centroid
of its vertices. The faces are re-indexed through the cells, and any face
whose three new corners are not pairwise distinct is dropped.

The model has five modules.

- `Geometry` (`geometry.dfy`): the value types `Vector3` and `Face`. It also
  holds the compound operators `+=` and `/=` and the three-index `Face`
  constructor.
- `Grid` (`grid.dfy`): the cell key `Grid3D`, its equality and its 64-bit
  hash. It also holds the truncating conversion behind `positionToGrid` and
  the arithmetic facts about key ranges.
- `MeshModel` (`mesh.dfy`): the `Mesh` class with its two sequences and its
  getters and setters. It also holds `computeBoundingBox` and
  `computeNormals`.
- `Clustering` (`clustering.dfy`): the four passes of `simplify`, each as a
  method over sequences and maps, proved against specification functions.
  The passes are the first pass (cell keys, sums and counts), averaging,
  index assignment and face remapping. The file also holds the properties of
  those functions.
- `Engine` (`vertex_clustering.dfy`): the `VertexClustering` class, its
  constructor and `Simplify`. Beside them are the predicate `Clusters`, which
  says what a result of `simplify` is, and the theorems about every such
  result.

Coordinates are mathematical reals. `static_cast<int>` is truncation toward
zero (`Grid.Trunc`). The hash is computed modulo 2^64, as `size_t`
arithmetic wraps.

`std::unordered_map` iteration order is unspecified, so the index assignment
pass may number the occupied cells in any order. The model reflects this:
`AssignIndices` picks cells with `:|`, and `Engine.Clusters` says that the
result is correct for some dense numbering of the occupied cells.
`Engine.ClusteringDeterministic` then shows that any two results differ only
in that numbering. One renumbering of 0..n-1 carries the first vertex
sequence onto the second, and the first face list, face by face, onto the
second.

### Where the intended behaviour and the code differ (the model follows the code)

- An axis with zero extent is meant to map to cell 0. The code divides by the
  extent without checking it. The model therefore requires a bounding box
  that is flat along no axis (`Engine.CanSimplify`). A single flat triangle
  is outside that precondition (`Engine.FlatTriangleExcluded`).
- The output is meant to have at most gridSize^3 vertices. The code does not
  clamp, and a vertex on the maximum face of the box gets key component
  `gridSize`. So each axis has gridSize+1 cells, and the proved bound is
  (gridSize+1)^3 (`Grid.CellRange`, `Engine.ClustersCounts`). With gridSize
  1, the four corners of a unit tetrahedron occupy four cells
  (`Engine.OnMaxCellsExceedGridCube`).
- A coarser grid is meant never to yield more vertices. The code does not
  promise that: cell boundaries of different resolutions do not nest. Four
  vertices occupy four cells at resolution 2 and three at resolution 3
  (`Engine.CoarserGridMoreCells`).
- A face whose cross product is (nearly) zero is meant to get the zero
  normal. The code normalises only when the length exceeds 1e-6 and
  otherwise keeps the raw cross product, which is not exactly zero for a
  nearly degenerate face (`MeshModel.StoredNormal`).
- The resolution is meant to be positive, but nothing checks it. With
  resolution 0 every vertex falls in cell (0,0,0), so the result is one
  vertex and no face (`Engine.ZeroGridCollapses`). A negative resolution
  gives keys between gridSize and 0. Both are modelled; only the
  (gridSize+1)^3 bound needs gridSize > 0.

## Model

| member | source | states |
|---|---|---|
| Geometry.Add | src/mesh/mesh.hpp:12-16 | `a += b` leaves a receiver that differs from the old one by exactly `b`, coordinate by coordinate |
| Geometry.DivScalar | src/mesh/mesh.hpp:18-22 | `v /= s` (s non-zero) leaves a receiver that, multiplied back by `s`, gives the old coordinates |
| Geometry.MakeFace | src/mesh/mesh.hpp:29-30 | the three-index constructor stores the corners in order and leaves the normal at the zero vector |
| Geometry.Sub | src/mesh/mesh.cpp:60-61 | the edge from `a` to `b` is the vector that, added to `a`, gives `b` |
| Geometry.Cross | src/mesh/mesh.cpp:63-66 | the cross product written out in `computeNormals`; `CrossIsPerpendicular` and `CrossDegenerate` state its properties |
| Geometry.Degenerate | src/algorithms/vertex_clustering.cpp:93-94 | a face is degenerate when two of its corners coincide; `Clustering.KeptFacesIsFilter` shows the remap loop keeps exactly the faces that are not |
| Geometry.CrossIsPerpendicular | src/mesh/mesh.cpp:63-66 | the cross product written out in `computeNormals` is perpendicular to both edges |
| Geometry.CrossDegenerate | src/mesh/mesh.cpp:60-66 | a zero edge or two equal edges give the zero cross product |
| Grid.EqualsIsIdentity | src/algorithms/vertex_clustering.hpp:18-20 | `Grid3D::operator==` holds exactly for equal keys, and so is reflexive, symmetric and transitive |
| Grid.Equals | src/algorithms/vertex_clustering.hpp:18-20 | `Grid3D::operator==`, compared axis by axis; `EqualsIsIdentity` shows it is value equality |
| Grid.Hash | src/algorithms/vertex_clustering.hpp:12-16 | the hash is a `size_t`: it lies in 0..2^64-1 |
| Grid.GridHasher | src/algorithms/vertex_clustering.hpp:23-27 | the hasher returns a `size_t` value in 0..2^64-1 |
| Grid.EqualKeysHashEqual | src/algorithms/vertex_clustering.hpp:12-27 | keys equal under `operator==` get equal hashes, as a hash map requires |
| Grid.HashCollision | src/algorithms/vertex_clustering.hpp:12-16 | two different keys within 32-bit range have the same hash, so lookups depend on `operator==` and not on the hash alone |
| Grid.Trunc | src/algorithms/vertex_clustering.cpp:16-20 | `static_cast<int>` truncates toward zero: for r >= 0 the result is the largest integer not above r, and for r < 0 the smallest integer not below r |
| Grid.Cell | src/algorithms/vertex_clustering.cpp:11-19 | one key component: the coordinate normalised to the extent, scaled by gridSize and truncated; `CellRange` bounds it |
| Grid.PositionToGrid | src/algorithms/vertex_clustering.cpp:7-21 | `positionToGrid`, one `Cell` per axis; `PositionInCube` bounds it |
| Grid.RatioInUnit | src/algorithms/vertex_clustering.cpp:10-13 | an offset inside the extent, divided by the extent, lies in [0,1] and is 1 only at the maximum |
| Grid.ScaleUnit | src/algorithms/vertex_clustering.cpp:16-19 | a ratio in [0,1] scaled by a positive grid size lies in [0, gridSize] and reaches gridSize only from 1 |
| Grid.CellRange | src/algorithms/vertex_clustering.cpp:7-21 | for a coordinate inside the extent, the key component is in 0..gridSize inclusive, and equals gridSize exactly when the coordinate is the maximum |
| Grid.PositionInCube | src/algorithms/vertex_clustering.cpp:7-21 | a position inside the box maps to a key in 0..gridSize on all three axes |
| Grid.CubeCard | src/algorithms/vertex_clustering.cpp:16-20 | any set of keys inside that cube has at most (gridSize+1)^3 members |
| MeshModel.Min | src/mesh/mesh.cpp:15-17 | `std::min` of two coordinates is below both and is one of them |
| MeshModel.Max | src/mesh/mesh.cpp:18-20 | `std::max` of two coordinates is above both and is one of them |
| MeshModel.MinStep | src/mesh/mesh.cpp:15-17 | one step of the minimum loop lowers the running corner to at most the vertex on every axis |
| MeshModel.MaxStep | src/mesh/mesh.cpp:18-20 | one step of the maximum loop raises the running corner to at least the vertex on every axis |
| MeshModel.BoxMin | src/mesh/mesh.cpp:13-17 | the minimum corner the loop leaves, folded from the first vertex; `BoxEncloses` and `BoxAttained` characterise it |
| MeshModel.BoxMax | src/mesh/mesh.cpp:13-20 | the maximum corner the loop leaves, folded from the first vertex; `BoxEncloses` and `BoxAttained` characterise it |
| MeshModel.BoxEncloses | src/mesh/mesh.cpp:13-21 | the min/max fold from the first vertex encloses every vertex on all three axes |
| MeshModel.BoxAttained | src/mesh/mesh.cpp:13-21 | every coordinate of the folded corners is the coordinate of some vertex |
| MeshModel.BoxIsBoundingBox | src/algorithms/vertex_clustering.cpp:33-41 | the folded corners are the axis-aligned bounding box: they enclose all vertices and are attained |
| MeshModel.BoundingBoxUnique | src/algorithms/vertex_clustering.cpp:33-41 | any box that encloses the vertices and whose corners are attained is the folded one |
| MeshModel.BoundsOf | src/algorithms/vertex_clustering.cpp:33-41 | the bounding-box loop in `simplify` returns the folded corners, which are the bounding box |
| MeshModel.RawNormal | src/mesh/mesh.cpp:55-66 | a face's edge-1 x edge-2 cross product; `RawNormalPerpendicular` and `DegenerateRawNormalIsZero` characterise it |
| MeshModel.StoredNormal | src/mesh/mesh.cpp:68-76 | the raw normal divided by its length when that length exceeds 1e-6, else the raw normal itself; `StoredNormalIsUnit` characterises it |
| MeshModel.RawNormalPerpendicular | src/mesh/mesh.cpp:55-66 | a face's unnormalised normal is perpendicular to both of its edges |
| MeshModel.DegenerateRawNormalIsZero | src/mesh/mesh.cpp:55-66 | a face with two equal corner indices has a zero unnormalised normal |
| MeshModel.StoredNormalIsUnit | src/mesh/mesh.cpp:68-76 | when the square root is exact and the length exceeds 1e-6, the stored normal has unit length |
| MeshModel.Mesh.constructor | src/mesh/mesh.hpp:35 | a default mesh has no vertices and no faces |
| MeshModel.Mesh.GetVertexCount | src/mesh/mesh.hpp:43 | returns the number of vertices |
| MeshModel.Mesh.GetFaceCount | src/mesh/mesh.hpp:44 | returns the number of faces |
| MeshModel.Mesh.GetVertices | src/mesh/mesh.hpp:46 | returns the vertex sequence itself |
| MeshModel.Mesh.GetFaces | src/mesh/mesh.hpp:47 | returns the face sequence itself |
| MeshModel.Mesh.SetVertices | src/mesh/mesh.hpp:48 | replaces the vertices and leaves the faces as they were |
| MeshModel.Mesh.SetFaces | src/mesh/mesh.hpp:49 | replaces the faces and leaves the vertices as they were |
| MeshModel.Mesh.ComputeBoundingBox | src/mesh/mesh.cpp:10-22 | on an empty mesh the out-arguments are left as given; otherwise they become the bounding box of the vertices |
| MeshModel.Mesh.ComputeNormals | src/mesh/mesh.cpp:53-78 | each face keeps its corners, and its normal becomes the edge cross product divided by its length when that length exceeds 1e-6 (unchanged otherwise); vertices are unchanged and the faces stay valid |
| Clustering.KeysOf | src/algorithms/vertex_clustering.cpp:46-52 | the key table has one key per input vertex, entry i being vertex i's cell |
| Clustering.CountIn | src/algorithms/vertex_clustering.cpp:54-63 | a cell's count is at most the number of vertices, and positive exactly when some vertex maps to the cell |
| Clustering.SumIn | src/algorithms/vertex_clustering.cpp:54-62 | the accumulated sum of a cell no vertex maps to is the zero vector |
| Clustering.Centroid | src/algorithms/vertex_clustering.cpp:67-75 | a cell's representative, its sum divided by its count; `CentroidWithin` and `CentroidOfSingle` characterise it |
| Clustering.Remapped | src/algorithms/vertex_clustering.cpp:89-95 | a face re-indexed through vertex, key and output index, with a zero normal; `KeptFacesIsFilter` shows the loop emits it exactly when it is not degenerate |
| Clustering.KeptFaces | src/algorithms/vertex_clustering.cpp:86-97 | the remapped face list is no longer than the input, and every face in it is non-degenerate with a zero normal |
| Clustering.AccumulateStep | src/algorithms/vertex_clustering.cpp:51-63 | initialising a missing cell, then adding the vertex and incrementing the count, keeps the maps equal to the counts and sums of the vertices seen so far |
| Clustering.FirstPass | src/algorithms/vertex_clustering.cpp:44-64 | `vertexToGrid` holds every vertex's key; both maps are defined exactly on the occupied cells, with each cell's count (at least 1) and position sum |
| Clustering.Average | src/algorithms/vertex_clustering.cpp:67-75 | every cell keeps its key and its sum is divided by its count |
| Clustering.NumberStep | src/algorithms/vertex_clustering.cpp:80-83 | giving a new cell the index `newVertices.size()` and appending its representative keeps the numbering consistent |
| Clustering.NumberedIsIndexing | src/algorithms/vertex_clustering.cpp:78-83 | once all cells are numbered, the numbering is a bijection from the cells onto 0..n-1 and each index holds its cell's representative |
| Clustering.AssignIndices | src/algorithms/vertex_clustering.cpp:78-83 | the cells get a dense bijective numbering 0..n-1, n is the number of cells, and `newVertices` at a cell's index is that cell's representative |
| Clustering.RemapFaces | src/algorithms/vertex_clustering.cpp:86-97 | the loop emits exactly the remapped non-degenerate faces, in input order |
| Clustering.OccupiedCard | src/algorithms/vertex_clustering.cpp:44-64 | there are no more occupied cells than vertices |
| Clustering.SumBounds | src/algorithms/vertex_clustering.cpp:59-63 | if a cell's vertices lie in a box, its sum lies between count copies of the box corners |
| Clustering.CentroidWithin | src/algorithms/vertex_clustering.cpp:59-74 | a cell's representative lies in every box that holds all of the cell's vertices |
| Clustering.SumOfSingle | src/algorithms/vertex_clustering.cpp:59-63 | the sum of a cell holding exactly one vertex is that vertex |
| Clustering.CentroidOfSingle | src/algorithms/vertex_clustering.cpp:59-74 | a cell holding exactly one vertex is represented by that vertex's own position |
| Clustering.KeptFacesIsFilter | src/algorithms/vertex_clustering.cpp:86-97 | the output faces are, in order, the remapped input faces at increasing positions, and an input face is kept if and only if its new corners are pairwise distinct |
| Clustering.KeptFacesInRange | src/algorithms/vertex_clustering.cpp:89-96 | when every output index is below n, every corner of every kept face is below n |
| Clustering.KeptFacesOneCell | src/algorithms/vertex_clustering.cpp:86-97 | when every vertex has the same key, every remapped face collapses and no face is kept |
| Engine.CornersResolve | src/algorithms/vertex_clustering.cpp:89-91 | every face corner's key is an occupied cell, so the `gridToIndex[...]` lookups never miss (they never insert) |
| Engine.ResultIsClustering | src/algorithms/vertex_clustering.cpp:23-112 | centroids placed by a dense numbering, with the faces remapped through it, form a clustering result |
| Engine.KeysInCube | src/algorithms/vertex_clustering.cpp:33-52 | every key computed against the mesh's own bounding box lies in 0..gridSize on all axes |
| Engine.CellKeys | src/algorithms/vertex_clustering.cpp:46-52 | the key table of the input, taken against the input's own bounding box, has one key per input vertex |
| Engine.ClustersCounts | src/algorithms/vertex_clustering.cpp:44-83 | a result has one vertex per occupied cell, so at most the input vertex count and, for gridSize > 0, at most (gridSize+1)^3 |
| Engine.ClustersFaces | src/algorithms/vertex_clustering.cpp:86-97 | a result has at most the input face count, and every face has valid corner indices and is not degenerate |
| Engine.ClustersEnclosed | src/algorithms/vertex_clustering.cpp:33-75 | every vertex of a result lies inside the input's bounding box |
| Engine.NumberingsRenumber | src/algorithms/vertex_clustering.cpp:78-83 | two dense numberings of the same cells are related by one renumbering of 0..n-1, which carries one vertex sequence onto the other |
| Engine.FaceRenumbered | src/algorithms/vertex_clustering.cpp:89-95 | under two numberings related by a renumbering, a face collapses under one exactly when it collapses under the other, and otherwise its corners are renumbered |
| Engine.FacesRenumberedAppend | src/algorithms/vertex_clustering.cpp:94-95 | appending renumbered faces to renumbered face lists keeps them renumbered |
| Engine.KeptFacesRenumbered | src/algorithms/vertex_clustering.cpp:86-97 | two numberings keep the same input faces, and each kept face of one is the matching kept face of the other, renumbered |
| Engine.VerticesAgree | src/algorithms/vertex_clustering.cpp:78-83 | every position produced under one numbering is produced under the other |
| Engine.ClusteringDeterministic | src/algorithms/vertex_clustering.cpp:67-97 | two results of the same input differ only in cell numbering: one renumbering of 0..n-1 maps the first vertex sequence onto the second and the first face list, face by face, onto the second; so the counts and the position sets agree |
| Engine.PassesRepresent | src/algorithms/vertex_clustering.cpp:67-83 | after averaging and numbering, each cell's index holds the cell's centroid |
| Engine.VertexClustering.constructor | src/algorithms/vertex_clustering.hpp:30 | the grid size is stored as given, unvalidated |
| Engine.VertexClustering.Passes | src/algorithms/vertex_clustering.cpp:29-97 | bounding box, first pass, averaging, numbering and remapping together produce a clustering result |
| Engine.VertexClustering.Simplify | src/algorithms/vertex_clustering.cpp:23-112 | returns a fresh mesh that is a clustering result, with no more vertices than the input and, for gridSize > 0, at most (gridSize+1)^3; no more faces; only valid, non-degenerate faces |
| Engine.OnMaxCellsExceedGridCube | src/algorithms/vertex_clustering.cpp:16-20 | with gridSize 1 the unit tetrahedron's four corners occupy four cells, more than gridSize^3 |
| Engine.FlatTriangleExcluded | src/algorithms/vertex_clustering.cpp:11-13 | a single triangle in the plane z = 0 has a zero z extent, so it is outside the accepted inputs |
| Engine.ZeroGridOneCell | src/algorithms/vertex_clustering.cpp:16-20 | with gridSize 0 every vertex has key (0,0,0), the one occupied cell |
| Engine.ZeroGridCollapses | src/algorithms/vertex_clustering.cpp:23-112 | with gridSize 0 a result has exactly one vertex and no face |
| Engine.CoarserGridMoreCells | src/algorithms/vertex_clustering.cpp:16-20 | four vertices occupy four cells at gridSize 2 and three cells at gridSize 3 |

## Left out

- Engine.VertexClustering.Simplify: requires at least one vertex, face corners that index the vertices, and an extent that is non-zero on every axis. The source checks none of these. Without them it reads out of range or divides by zero, which is not modelled. It does not require a positive gridSize; only the (gridSize+1)^3 bound assumes one, and the program's own call sites pass 16, 32 and 8 (src/main.cpp:46-51, src/main.cpp:139).
- MeshModel.Mesh.ComputeNormals: requires `FacesValid()`, face corners that index the vertices. The PLY loader reads face indices without checking them (src/mesh/mesh.cpp:166-168) and then calls `computeNormals` (src/mesh/mesh.cpp:182), so a malformed file reads out of range, which is not modelled.
- Engine.VertexClustering.Simplify: the console messages, including the vertex and face counts and the reduction ratio, are output only and are not modelled.
- Clustering.AssignIndices: the numbering follows the unspecified iteration order of `std::unordered_map`. It is modelled as any order (`:|`), so the model proves what holds for every order.
- Grid.Hash: the bucket placement of keys is not modelled. Maps are keyed by `Grid3D` values directly, which matches `operator==`, and collisions are shown possible but have no effect on the result.
- Floating point: coordinates are reals. Single-precision rounding of the normalisation, the scaling, the sums and the division is not modelled. The `1e-6f` threshold is the exact real 0.000001.
- Integer widths: `int` keys and counts, `unsigned int` face indices and the `size_t` to `int` conversion of output indices are unbounded. The only wrap-around modelled is the `size_t` hash. `static_cast<int>` of a value beyond the `int` range does not arise for vertices inside the box unless gridSize is near `INT_MAX`.
- MeshModel.Mesh.ComputeNormals: `sqrt` is a parameter. `StoredNormalIsUnit` assumes it is exact, which the C library's single-precision `sqrt` is not.
- Geometry.Add and Geometry.DivScalar: the compound operators mutate their receiver in place. They are modelled as functions that return the receiver's new value.
- `Vector3`'s defaulted constructor is the constant `Geometry.Zero`.
- Mesh loading from PLY files, `render`, `debugPrint`, `centerAndScale`, and the `centerPoint` and `scale` fields that only `centerAndScale` uses are not part of this model. They are file I/O, OpenGL drawing and console output outside the decimation core.
- The program entry point, the camera and the file utilities are not part of this model.
