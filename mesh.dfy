/**
 * The triangle mesh: an ordered vertex sequence and an ordered face sequence,
 * with the bounding-box and face-normal computations that read them.
 */
module MeshModel {
  import opened Geometry

  /** `std::min(a, b)`: `b` when `b < a`, otherwise `a`. */
  function Min(a: real, b: real): (r: real)
    ensures r <= a && r <= b && (r == a || r == b)
  {
    if b < a then b else a
  }

  /** `std::max(a, b)`: `b` when `a < b`, otherwise `a`. */
  function Max(a: real, b: real): (r: real)
    ensures a <= r && b <= r && (r == a || r == b)
  {
    if a < b then b else a
  }

  /** One step of the minimum loop: each coordinate of `lo` lowered to `v`'s. */
  function MinStep(lo: Vector3, v: Vector3): (r: Vector3)
    ensures r.x <= lo.x && r.y <= lo.y && r.z <= lo.z
    ensures r.x <= v.x && r.y <= v.y && r.z <= v.z
  {
    Vector3(Min(lo.x, v.x), Min(lo.y, v.y), Min(lo.z, v.z))
  }

  /** One step of the maximum loop: each coordinate of `hi` raised to `v`'s. */
  function MaxStep(hi: Vector3, v: Vector3): (r: Vector3)
    ensures hi.x <= r.x && hi.y <= r.y && hi.z <= r.z
    ensures v.x <= r.x && v.y <= r.y && v.z <= r.z
  {
    Vector3(Max(hi.x, v.x), Max(hi.y, v.y), Max(hi.z, v.z))
  }

  /** The corner the loop leaves in `min`: start from the first vertex, fold in the rest. */
  function BoxMin(vs: seq<Vector3>): Vector3
    requires |vs| > 0
    decreases |vs|
  {
    if |vs| == 1 then vs[0] else MinStep(BoxMin(vs[..|vs| - 1]), vs[|vs| - 1])
  }

  /** The corner the loop leaves in `max`. */
  function BoxMax(vs: seq<Vector3>): Vector3
    requires |vs| > 0
    decreases |vs|
  {
    if |vs| == 1 then vs[0] else MaxStep(BoxMax(vs[..|vs| - 1]), vs[|vs| - 1])
  }

  /** `lo` and `hi` enclose every vertex, coordinate by coordinate. */
  ghost predicate Encloses(vs: seq<Vector3>, lo: Vector3, hi: Vector3)
  {
    forall i | 0 <= i < |vs| :: Within(vs[i], lo, hi)
  }

  /** Every coordinate of `lo` and of `hi` is the coordinate of some vertex. */
  ghost predicate Attained(vs: seq<Vector3>, lo: Vector3, hi: Vector3)
  {
    && (exists i | 0 <= i < |vs| :: vs[i].x == lo.x)
    && (exists i | 0 <= i < |vs| :: vs[i].y == lo.y)
    && (exists i | 0 <= i < |vs| :: vs[i].z == lo.z)
    && (exists i | 0 <= i < |vs| :: vs[i].x == hi.x)
    && (exists i | 0 <= i < |vs| :: vs[i].y == hi.y)
    && (exists i | 0 <= i < |vs| :: vs[i].z == hi.z)
  }

  /** The axis-aligned bounding box of `vs`, described without reference to the loop. */
  ghost predicate IsBoundingBox(vs: seq<Vector3>, lo: Vector3, hi: Vector3)
  {
    Encloses(vs, lo, hi) && Attained(vs, lo, hi)
  }

  /** The folded corners enclose every vertex. */
  lemma {:induction false} BoxEncloses(vs: seq<Vector3>)
    requires |vs| > 0
    ensures Encloses(vs, BoxMin(vs), BoxMax(vs))
    decreases |vs|
  {
    if |vs| > 1 {
      var init := vs[..|vs| - 1];
      BoxEncloses(init);
      assert forall i | 0 <= i < |init| :: vs[i] == init[i];
    }
  }

  /** Every coordinate of the folded corners is the coordinate of some vertex. */
  lemma {:induction false} BoxAttained(vs: seq<Vector3>)
    requires |vs| > 0
    ensures Attained(vs, BoxMin(vs), BoxMax(vs))
    decreases |vs|
  {
    if |vs| > 1 {
      var init := vs[..|vs| - 1];
      BoxAttained(init);
      var lo, hi := BoxMin(init), BoxMax(init);
      var n := |vs| - 1;
      // a witness in the prefix is a witness in the whole sequence
      if vs[n].x < lo.x { assert vs[n].x == BoxMin(vs).x; }
      else { var i :| 0 <= i < |init| && init[i].x == lo.x; assert vs[i].x == BoxMin(vs).x; }
      if vs[n].y < lo.y { assert vs[n].y == BoxMin(vs).y; }
      else { var i :| 0 <= i < |init| && init[i].y == lo.y; assert vs[i].y == BoxMin(vs).y; }
      if vs[n].z < lo.z { assert vs[n].z == BoxMin(vs).z; }
      else { var i :| 0 <= i < |init| && init[i].z == lo.z; assert vs[i].z == BoxMin(vs).z; }
      if hi.x < vs[n].x { assert vs[n].x == BoxMax(vs).x; }
      else { var i :| 0 <= i < |init| && init[i].x == hi.x; assert vs[i].x == BoxMax(vs).x; }
      if hi.y < vs[n].y { assert vs[n].y == BoxMax(vs).y; }
      else { var i :| 0 <= i < |init| && init[i].y == hi.y; assert vs[i].y == BoxMax(vs).y; }
      if hi.z < vs[n].z { assert vs[n].z == BoxMax(vs).z; }
      else { var i :| 0 <= i < |init| && init[i].z == hi.z; assert vs[i].z == BoxMax(vs).z; }
    } else {
      assert vs[0].x == BoxMin(vs).x;
    }
  }

  /** The folded corners are the bounding box of the vertices. */
  lemma BoxIsBoundingBox(vs: seq<Vector3>)
    requires |vs| > 0
    ensures IsBoundingBox(vs, BoxMin(vs), BoxMax(vs))
  {
    BoxEncloses(vs);
    BoxAttained(vs);
  }

  /** A box that encloses the vertices and whose corners are attained is the folded one. */
  lemma BoundingBoxUnique(vs: seq<Vector3>, lo: Vector3, hi: Vector3)
    requires |vs| > 0 && IsBoundingBox(vs, lo, hi)
    ensures lo == BoxMin(vs) && hi == BoxMax(vs)
  {
    BoxIsBoundingBox(vs);
  }

  /**
   * The bounding-box loop: start both corners at the first vertex, then lower
   * `lo` and raise `hi` over every vertex (the first one included).
   */
  method BoundsOf(vs: seq<Vector3>) returns (lo: Vector3, hi: Vector3)
    requires |vs| > 0
    ensures lo == BoxMin(vs) && hi == BoxMax(vs)
    ensures IsBoundingBox(vs, lo, hi)
  {
    lo, hi := vs[0], vs[0];
    for i := 0 to |vs|
      invariant lo == BoxMin(vs[..if i == 0 then 1 else i])
      invariant hi == BoxMax(vs[..if i == 0 then 1 else i])
    {
      assert vs[..i + 1][..i] == vs[..i];
      lo := MinStep(lo, vs[i]);
      hi := MaxStep(hi, vs[i]);
    }
    assert vs[..|vs|] == vs;
    BoxIsBoundingBox(vs);
  }

  /** The edge-1 x edge-2 normal of a face, before normalisation. */
  function RawNormal(vs: seq<Vector3>, f: Face): Vector3
    requires IndicesBelow(f, |vs|)
  {
    Cross(Sub(vs[f.v2], vs[f.v1]), Sub(vs[f.v3], vs[f.v1]))
  }

  /**
   * The normal stored for a raw cross product `n`: divided by its length when that
   * length exceeds 1e-6, otherwise `n` unchanged. `sqrt` is the C library square root.
   */
  function StoredNormal(sqrt: real -> real, n: Vector3): Vector3
  {
    var len := sqrt(Dot(n, n));
    if len > 0.000001 then DivScalar(n, len) else n
  }

  /** The raw normal is perpendicular to both edges of the face. */
  lemma RawNormalPerpendicular(vs: seq<Vector3>, f: Face)
    requires IndicesBelow(f, |vs|)
    ensures Dot(RawNormal(vs, f), Sub(vs[f.v2], vs[f.v1])) == 0.0
    ensures Dot(RawNormal(vs, f), Sub(vs[f.v3], vs[f.v1])) == 0.0
  {
    CrossIsPerpendicular(Sub(vs[f.v2], vs[f.v1]), Sub(vs[f.v3], vs[f.v1]));
  }

  /** A face with two equal corners has a zero raw normal. */
  lemma DegenerateRawNormalIsZero(vs: seq<Vector3>, f: Face)
    requires IndicesBelow(f, |vs|) && Degenerate(f)
    ensures RawNormal(vs, f) == Zero
  {
    var e1, e2 := Sub(vs[f.v2], vs[f.v1]), Sub(vs[f.v3], vs[f.v1]);
    CrossDegenerate(e1);
    CrossDegenerate(e2);
  }

  /** When the square root is exact and the length is above the threshold, the stored normal has unit length. */
  lemma StoredNormalIsUnit(sqrt: real -> real, n: Vector3)
    requires sqrt(Dot(n, n)) > 0.000001
    requires sqrt(Dot(n, n)) * sqrt(Dot(n, n)) == Dot(n, n)
    ensures Dot(StoredNormal(sqrt, n), StoredNormal(sqrt, n)) == 1.0
  {
    var len := sqrt(Dot(n, n));
    var u := DivScalar(n, len);
    assert u.x * len == n.x && u.y * len == n.y && u.z * len == n.z;
    calc {
      Dot(u, u) * (len * len);
      (u.x * len) * (u.x * len) + (u.y * len) * (u.y * len) + (u.z * len) * (u.z * len);
      Dot(n, n);
      1.0 * (len * len);
    }
  }

  /** A triangle mesh. The fields are the source's private vectors. */
  class Mesh {
    var vertices: seq<Vector3>
    var faces: seq<Face>

    /** The default constructor: no vertices, no faces. */
    constructor()
      ensures vertices == [] && faces == []
    {
      vertices := [];
      faces := [];
    }

    function GetVertexCount(): (n: nat)
      reads this
      ensures n == |vertices|
    {
      |vertices|
    }

    function GetFaceCount(): (n: nat)
      reads this
      ensures n == |faces|
    {
      |faces|
    }

    function GetVertices(): (vs: seq<Vector3>)
      reads this
      ensures vs == vertices
    {
      vertices
    }

    function GetFaces(): (fs: seq<Face>)
      reads this
      ensures fs == faces
    {
      faces
    }

    /** Replace the vertex sequence; the faces are untouched. */
    method SetVertices(newVertices: seq<Vector3>)
      modifies this
      ensures vertices == newVertices && faces == old(faces)
    {
      vertices := newVertices;
    }

    /** Replace the face sequence; the vertices are untouched. */
    method SetFaces(newFaces: seq<Face>)
      modifies this
      ensures faces == newFaces && vertices == old(vertices)
    {
      faces := newFaces;
    }

    /** Every face corner is an index into the vertex sequence. */
    predicate FacesValid()
      reads this
    {
      forall i | 0 <= i < |faces| :: IndicesBelow(faces[i], |vertices|)
    }

    /**
     * `computeBoundingBox(min, max)`: `minIn` and `maxIn` are what the caller's
     * reference arguments held. On an empty mesh they come back unwritten;
     * otherwise they are replaced by the bounding box of the vertices.
     */
    method ComputeBoundingBox(minIn: Vector3, maxIn: Vector3) returns (min: Vector3, max: Vector3)
      ensures |vertices| == 0 ==> min == minIn && max == maxIn
      ensures |vertices| > 0 ==> min == BoxMin(vertices) && max == BoxMax(vertices)
      ensures |vertices| > 0 ==> IsBoundingBox(vertices, min, max)
    {
      if |vertices| == 0 {
        return minIn, maxIn;
      }
      min, max := BoundsOf(vertices);
    }

    /**
     * `computeNormals`: every face's normal becomes the cross product of its two
     * edges, rescaled to unit length unless that length is at most 1e-6.
     * Only the `normal` fields change.
     */
    method ComputeNormals(sqrt: real -> real)
      requires FacesValid()
      modifies this
      ensures vertices == old(vertices)
      ensures |faces| == |old(faces)|
      ensures FacesValid()
      ensures forall i | 0 <= i < |faces| ::
        faces[i] == old(faces[i]).(normal := StoredNormal(sqrt, RawNormal(vertices, old(faces[i]))))
    {
      for i := 0 to |faces|
        invariant vertices == old(vertices)
        invariant |faces| == |old(faces)|
        invariant forall j | 0 <= j < i ::
          faces[j] == old(faces[j]).(normal := StoredNormal(sqrt, RawNormal(vertices, old(faces[j]))))
        invariant forall j | i <= j < |faces| :: faces[j] == old(faces[j])
      {
        var face := faces[i];
        var v1, v2, v3 := vertices[face.v1], vertices[face.v2], vertices[face.v3];
        var edge1 := Sub(v2, v1);
        var edge2 := Sub(v3, v1);
        var normal := Cross(edge1, edge2);
        var len := sqrt(Dot(normal, normal));
        if len > 0.000001 {
          normal := DivScalar(normal, len);
        }
        faces := faces[i := face.(normal := normal)];
      }
    }
  }
}
