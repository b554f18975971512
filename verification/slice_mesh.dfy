/**
 * The index bookkeeping of the slice meshes of the filtering and viewing
 * programs (`buildInitialSlice`, `updateSlice`).
 *
 * A slice orthogonal to `axis` through the domain `[lo, up]` is a grid of
 * `s[i] x s[j]` unit squares in the plane of the two other axes `i < j`. Its
 * vertices are the `t[i] x t[j]` grid corners, stored row by row (`j` outer,
 * `i` inner) at the front of a vertex vector of `t[0] * t[1] * t[2]` slots;
 * its faces and their colours are stored row by row in `s[0] * s[1] * s[2]`
 * slots. Vertex coordinates, which `buildInitialSlice` stores as reals ending in `.5`
 * along `axis`, are doubled here so that they stay integers.
 */
module SliceMesh {
  import opened Lattice

  /** The in-plane axes `(i, j)` of a slice orthogonal to `axis`. */
  function InPlaneAxes(axis: int): (ij: (int, int))
    requires 0 <= axis < 3
    ensures 0 <= ij.0 < ij.1 < 3
    ensures {ij.0, ij.1, axis} == {0, 1, 2}
  {
    (if axis == 0 then 1 else 0, if axis == 2 then 1 else 2)
  }

  /** The point whose coordinate along `axis` is `a`, along `i` is `b` and along `j` is `c`. */
  function Place(axis: int, a: int, b: int, c: int): (r: Point)
    requires 0 <= axis < 3
    ensures Coord(r, axis) == a && Coord(r, InPlaneAxes(axis).0) == b && Coord(r, InPlaneAxes(axis).1) == c
  {
    if axis == 0 then Point(a, b, c) else if axis == 1 then Point(b, a, c) else Point(b, c, a)
  }

  /** The bounds of a nonempty domain. */
  predicate Bounds(lo: Point, up: Point)
  {
    lo.x <= up.x && lo.y <= up.y && lo.z <= up.z
  }

  /** `s[k]`: the number of voxels of the slice along axis `k` (`sup - slo + 1`). */
  function SliceExtent(lo: Point, up: Point, axis: int, k: int): int
    requires 0 <= axis < 3 && 0 <= k < 3
  {
    if k == axis then 1 else Coord(up, k) - Coord(lo, k) + 1
  }

  /** `nb_faces`: `s[0] * s[1] * s[2]`. */
  function NbFaces(lo: Point, up: Point, axis: int): int
    requires 0 <= axis < 3
  {
    SliceExtent(lo, up, axis, 0) * SliceExtent(lo, up, axis, 1) * SliceExtent(lo, up, axis, 2)
  }

  /** `nb_vertices`: `t[0] * t[1] * t[2]` with `t = s + 1`. */
  function NbVertices(lo: Point, up: Point, axis: int): int
    requires 0 <= axis < 3
  {
    (SliceExtent(lo, up, axis, 0) + 1) * (SliceExtent(lo, up, axis, 1) + 1) * (SliceExtent(lo, up, axis, 2) + 1)
  }

  /** `s[i]` and `s[j]` for the in-plane axes. */
  function Si(lo: Point, up: Point, axis: int): int
    requires 0 <= axis < 3
  {
    SliceExtent(lo, up, axis, InPlaneAxes(axis).0)
  }

  function Sj(lo: Point, up: Point, axis: int): int
    requires 0 <= axis < 3
  {
    SliceExtent(lo, up, axis, InPlaneAxes(axis).1)
  }

  /**
   * Since `s[axis] == 1`, the slice has `s[i] * s[j]` faces, and its vertex
   * vector has room for twice its `t[i] * t[j]` grid corners.
   */
  lemma SliceCounts(lo: Point, up: Point, axis: int)
    requires 0 <= axis < 3 && Bounds(lo, up)
    ensures Si(lo, up, axis) >= 1 && Sj(lo, up, axis) >= 1
    ensures NbFaces(lo, up, axis) == Si(lo, up, axis) * Sj(lo, up, axis)
    ensures NbVertices(lo, up, axis) == 2 * ((Si(lo, up, axis) + 1) * (Sj(lo, up, axis) + 1))
  {
    var si, sj := Si(lo, up, axis), Sj(lo, up, axis);
    if axis == 0 {
      assert NbVertices(lo, up, axis) == 2 * (si + 1) * (sj + 1);
    } else if axis == 1 {
      assert NbVertices(lo, up, axis) == (si + 1) * 2 * (sj + 1);
    } else {
      assert NbVertices(lo, up, axis) == (si + 1) * (sj + 1) * 2;
    }
  }

  /** The first `w` cells `f(0, b), ..., f(w - 1, b)` of row `b`. */
  function Row<T>(w: nat, b: nat, f: (nat, nat) -> T): (r: seq<T>)
    ensures |r| == w && forall a | 0 <= a < w :: r[a] == f(a, b)
  {
    seq(w, a requires 0 <= a < w => f(a, b))
  }

  /** The cells `f(a, b)` of a `w x h` grid, row by row: `b` outer, `a` inner. */
  function Grid<T>(w: nat, h: nat, f: (nat, nat) -> T): seq<T>
  {
    if h == 0 then [] else Grid(w, h - 1, f) + Row(w, h - 1, f)
  }

  /** A `w x h` grid has `w * h` cells. */
  lemma {:induction false} GridLength<T>(w: nat, h: nat, f: (nat, nat) -> T)
    ensures |Grid(w, h, f)| == w * h
  {
    if h > 0 {
      GridLength(w, h - 1, f);
      assert w * (h - 1) + w == w * h;
    }
  }

  /** Cell `(a, b)` is stored right after the `b` rows before it. */
  lemma {:induction false} GridIndex<T>(w: nat, h: nat, f: (nat, nat) -> T, a: nat, b: nat)
    requires a < w && b < h
    ensures |Grid(w, b, f)| + a < |Grid(w, h, f)| && Grid(w, h, f)[|Grid(w, b, f)| + a] == f(a, b)
  {
    if b < h - 1 {
      GridIndex(w, h - 1, f, a, b);
    }
  }

  /** Every slot of the grid holds the cell of some row `b` and column `a`. */
  lemma {:induction false} GridOnto<T>(w: nat, h: nat, f: (nat, nat) -> T, k: nat) returns (a: nat, b: nat)
    requires k < |Grid(w, h, f)|
    ensures a < w && b < h && k == |Grid(w, b, f)| + a && Grid(w, h, f)[k] == f(a, b)
  {
    var previous := Grid(w, h - 1, f);
    if k < |previous| {
      a, b := GridOnto(w, h - 1, f, k);
      GridIndex(w, h - 1, f, a, b);
    } else {
      a, b := k - |previous|, h - 1;
    }
  }

  /** The doubled vertex of grid corner `(loI + a, loJ + b)` at level `level` along `axis`. */
  function Corner(axis: int, level: int, loI: int, loJ: int): (nat, nat) -> Point
    requires 0 <= axis < 3
  {
    (a: nat, b: nat) => Place(axis, 2 * level + 1, 2 * (loI + a), 2 * (loJ + b))
  }

  /** `n` zero vertices (`RealPoint::zero`). */
  function Zeros(n: nat): (z: seq<Point>)
    ensures |z| == n && forall k | 0 <= k < n :: z[k] == Point(0, 0, 0)
  {
    seq(n, _ => Point(0, 0, 0))
  }

  /** The grid corners of the slice at `level`, row by row. */
  function SliceCorners(lo: Point, up: Point, axis: int, level: int): seq<Point>
    requires 0 <= axis < 3 && Bounds(lo, up)
  {
    SliceCounts(lo, up, axis);
    Grid(Si(lo, up, axis) + 1, Sj(lo, up, axis) + 1,
         Corner(axis, level, Coord(lo, InPlaneAxes(axis).0), Coord(lo, InPlaneAxes(axis).1)))
  }

  /** The vertex vector of the slice at `level`: its grid corners followed by zero vertices, `nb_vertices` in all. */
  function SliceVertexList(lo: Point, up: Point, axis: int, level: int): (v: seq<Point>)
    requires 0 <= axis < 3 && Bounds(lo, up)
    ensures |v| == NbVertices(lo, up, axis)
  {
    SliceCounts(lo, up, axis);
    var corners := SliceCorners(lo, up, axis, level);
    GridLength(Si(lo, up, axis) + 1, Sj(lo, up, axis) + 1,
               Corner(axis, level, Coord(lo, InPlaneAxes(axis).0), Coord(lo, InPlaneAxes(axis).1)));
    corners + Zeros(NbVertices(lo, up, axis) - |corners|)
  }

  /**
   * The vertex loop shared by both functions, on a vector of `nbVertices`
   * zero vertices: the grid corners `(x, y)`, for `x` in `[loI, upI + 1]` and
   * `y` in `[loJ, upJ + 1]`, row by row, with doubled coordinates
   * `2 * level + 1` along `axis`, `2 * x` along `i` and `2 * y` along `j`;
   * the slots after them keep their zero value.
   */
  method StoreCorners(nbVertices: nat, axis: int, level: int, loI: int, upI: int, loJ: int, upJ: int)
    returns (positions: seq<Point>)
    requires 0 <= axis < 3 && loI <= upI && loJ <= upJ
    requires |Grid(upI - loI + 2, upJ - loJ + 2, Corner(axis, level, loI, loJ))| <= nbVertices
    ensures var corners := Grid(upI - loI + 2, upJ - loJ + 2, Corner(axis, level, loI, loJ));
            positions == corners + Zeros(nbVertices - |corners|)
  {
    var ti, tj := upI - loI + 2, upJ - loJ + 2;
    ghost var corner := Corner(axis, level, loI, loJ);
    ghost var corners := Grid(ti, tj, corner);
    positions := Zeros(nbVertices);
    var idx := 0;
    for y := loJ to upJ + 2
      invariant |positions| == nbVertices
      invariant idx == |Grid(ti, y - loJ, corner)| <= |corners|
      invariant positions == Grid(ti, y - loJ, corner) + Zeros(nbVertices - idx)
    {
      for x := loI to upI + 2
        invariant |positions| == nbVertices
        invariant idx == |Grid(ti, y - loJ, corner)| + (x - loI) <= |corners|
        invariant positions == Grid(ti, y - loJ, corner) + Row(x - loI, y - loJ, corner) + Zeros(nbVertices - idx)
      {
        GridIndex(ti, tj, corner, x - loI, y - loJ);
        var current := Place(axis, 2 * level + 1, 2 * x, 2 * y);
        assert current == corner(x - loI, y - loJ);
        positions := positions[idx := current];
        assert Row(x + 1 - loI, y - loJ, corner) == Row(x - loI, y - loJ, corner) + [current];
        assert positions == Grid(ti, y - loJ, corner) + Row(x + 1 - loI, y - loJ, corner) + Zeros(nbVertices - idx - 1);
        idx := idx + 1;
      }
    }
  }

  /** `nb_vertices` and the in-plane bounds of the slice, and then the vertex loop. */
  method SliceVertices(lo: Point, up: Point, axis: int, level: int) returns (positions: seq<Point>)
    requires 0 <= axis < 3 && Bounds(lo, up)
    ensures positions == SliceVertexList(lo, up, axis, level)
  {
    var (i, j) := InPlaneAxes(axis);
    var nbVertices := NbVertices(lo, up, axis);
    SliceCounts(lo, up, axis);
    GridLength(Si(lo, up, axis) + 1, Sj(lo, up, axis) + 1, Corner(axis, level, Coord(lo, i), Coord(lo, j)));
    positions := StoreCorners(nbVertices, axis, level, Coord(lo, i), Coord(up, i), Coord(lo, j), Coord(up, j));
  }

  /** `t[i] * y + x` and the three other corners of face `(x, y)`, as `buildInitialSlice` computes them. */
  function FaceCorners(ti: int, x: int, y: int): seq<int>
  {
    [ti * y + x, ti * y + x + 1, ti * (y + 1) + x + 1, ti * (y + 1) + x]
  }

  /** The face of cell `(loI + a, loJ + b)`. */
  function Face(ti: int, loI: int, loJ: int): (nat, nat) -> seq<int>
  {
    (a: nat, b: nat) => FaceCorners(ti, loI + a, loJ + b)
  }

  /** The faces of the slice, row by row. */
  function SliceFaceList(lo: Point, up: Point, axis: int): seq<seq<int>>
    requires 0 <= axis < 3 && Bounds(lo, up)
  {
    SliceCounts(lo, up, axis);
    Grid(Si(lo, up, axis), Sj(lo, up, axis),
         Face(Si(lo, up, axis) + 1, Coord(lo, InPlaneAxes(axis).0), Coord(lo, InPlaneAxes(axis).1)))
  }

  /** The slot where the vertex loop stores grid corner `(x, y)`: `t[i] * (y - loJ) + (x - loI)`. */
  function VertexSlot(ti: int, loI: int, loJ: int, x: int, y: int): int
  {
    ti * (y - loJ) + (x - loI)
  }

  /** Grid corner `(x, y)` of the slice is the vertex at its slot, one of the first `t[i] * t[j]`. */
  lemma VertexAtSlot(lo: Point, up: Point, axis: int, level: int, x: int, y: int)
    requires 0 <= axis < 3 && Bounds(lo, up)
    requires Coord(lo, InPlaneAxes(axis).0) <= x <= Coord(up, InPlaneAxes(axis).0) + 1
    requires Coord(lo, InPlaneAxes(axis).1) <= y <= Coord(up, InPlaneAxes(axis).1) + 1
    ensures var slot := VertexSlot(Si(lo, up, axis) + 1, Coord(lo, InPlaneAxes(axis).0), Coord(lo, InPlaneAxes(axis).1), x, y);
            0 <= slot < |SliceCorners(lo, up, axis, level)| <= NbVertices(lo, up, axis) &&
            SliceVertexList(lo, up, axis, level)[slot] == Place(axis, 2 * level + 1, 2 * x, 2 * y)
  {
    SliceCounts(lo, up, axis);
    var (i, j) := InPlaneAxes(axis);
    var ti, tj := Si(lo, up, axis) + 1, Sj(lo, up, axis) + 1;
    var a, b := x - Coord(lo, i), y - Coord(lo, j);
    var corner := Corner(axis, level, Coord(lo, i), Coord(lo, j));
    GridIndex(ti, tj, corner, a, b);
    GridLength(ti, b, corner);
    GridLength(ti, tj, corner);
    assert VertexSlot(ti, Coord(lo, i), Coord(lo, j), x, y) == |Grid(ti, b, corner)| + a;
    assert corner(a, b) == Place(axis, 2 * level + 1, 2 * x, 2 * y);
  }

  /**
   * The corners of face `(x, y)` are the vertex slots of its four grid
   * corners, counter-clockwise from `(x, y)`, each shifted by
   * `t[i] * loJ + loI`.
   */
  lemma FaceCornersAreShiftedVertexSlots(ti: int, loI: int, loJ: int, x: int, y: int)
    ensures var shift := ti * loJ + loI;
            FaceCorners(ti, x, y) ==
            [VertexSlot(ti, loI, loJ, x, y) + shift, VertexSlot(ti, loI, loJ, x + 1, y) + shift,
             VertexSlot(ti, loI, loJ, x + 1, y + 1) + shift, VertexSlot(ti, loI, loJ, x, y + 1) + shift]
  {
    assert ti * (y - loJ) == ti * y - ti * loJ;
    assert ti * (y + 1 - loJ) == ti * (y + 1) - ti * loJ;
  }

  /**
   * With in-plane lower bounds 0, face `(x, y)` is the quad of the vertices
   * at its corners `(x, y)`, `(x + 1, y)`, `(x + 1, y + 1)`, `(x, y + 1)`.
   */
  lemma FacesAreQuadsAtOrigin(lo: Point, up: Point, axis: int, level: int, x: int, y: int)
    requires 0 <= axis < 3 && Bounds(lo, up)
    requires Coord(lo, InPlaneAxes(axis).0) == 0 && Coord(lo, InPlaneAxes(axis).1) == 0
    requires 0 <= x <= Coord(up, InPlaneAxes(axis).0) && 0 <= y <= Coord(up, InPlaneAxes(axis).1)
    ensures var corners, vertices := FaceCorners(Si(lo, up, axis) + 1, x, y), SliceVertexList(lo, up, axis, level);
            (forall k | 0 <= k < 4 :: 0 <= corners[k] < |vertices|) &&
            vertices[corners[0]] == Place(axis, 2 * level + 1, 2 * x, 2 * y) &&
            vertices[corners[1]] == Place(axis, 2 * level + 1, 2 * x + 2, 2 * y) &&
            vertices[corners[2]] == Place(axis, 2 * level + 1, 2 * x + 2, 2 * y + 2) &&
            vertices[corners[3]] == Place(axis, 2 * level + 1, 2 * x, 2 * y + 2)
  {
    FaceCornersAreShiftedVertexSlots(Si(lo, up, axis) + 1, 0, 0, x, y);
    VertexAtSlot(lo, up, axis, level, x, y);
    VertexAtSlot(lo, up, axis, level, x + 1, y);
    VertexAtSlot(lo, up, axis, level, x + 1, y + 1);
    VertexAtSlot(lo, up, axis, level, x, y + 1);
  }

  /**
   * The face loop: the faces of the cells `(x, y)`, for `x` in `[loI, upI]`
   * and `y` in `[loJ, upJ]`, row by row, filling all `nbFaces` slots (the
   * loop counters are `size_t`, hence `loI, loJ >= 0`).
   */
  method StoreFaces(nbFaces: nat, ti: int, loI: int, upI: int, loJ: int, upJ: int) returns (faces: seq<seq<int>>)
    requires 0 <= loI <= upI && 0 <= loJ <= upJ
    requires |Grid(upI - loI + 1, upJ - loJ + 1, Face(ti, loI, loJ))| == nbFaces
    ensures faces == Grid(upI - loI + 1, upJ - loJ + 1, Face(ti, loI, loJ))
  {
    var si, sj := upI - loI + 1, upJ - loJ + 1;
    ghost var face := Face(ti, loI, loJ);
    faces := seq(nbFaces, _ => []);
    var idx := 0;
    for y := loJ to upJ + 1
      invariant |faces| == nbFaces
      invariant idx == |Grid(si, y - loJ, face)| <= nbFaces && faces[..idx] == Grid(si, y - loJ, face)
    {
      for x := loI to upI + 1
        invariant |faces| == nbFaces
        invariant idx == |Grid(si, y - loJ, face)| + (x - loI) <= nbFaces
        invariant faces[..idx] == Grid(si, y - loJ, face) + Row(x - loI, y - loJ, face)
      {
        GridIndex(si, sj, face, x - loI, y - loJ);
        var quad := FaceCorners(ti, x, y);
        assert quad == face(x - loI, y - loJ);
        faces := faces[idx := quad];
        assert faces[..idx + 1] == faces[..idx] + [quad];
        assert Row(x + 1 - loI, y - loJ, face) == Row(x - loI, y - loJ, face) + [quad];
        idx := idx + 1;
      }
    }
    assert faces == faces[..idx];
  }

  /** `nb_faces` and `t[i]`, and then the face loop. */
  method SliceFaces(lo: Point, up: Point, axis: int) returns (faces: seq<seq<int>>)
    requires 0 <= axis < 3 && Bounds(lo, up)
    requires Coord(lo, InPlaneAxes(axis).0) >= 0 && Coord(lo, InPlaneAxes(axis).1) >= 0
    ensures |faces| == NbFaces(lo, up, axis)
    ensures faces == SliceFaceList(lo, up, axis)
  {
    var (i, j) := InPlaneAxes(axis);
    var nbFaces := NbFaces(lo, up, axis);
    var ti := Si(lo, up, axis) + 1;
    SliceCounts(lo, up, axis);
    GridLength(Si(lo, up, axis), Sj(lo, up, axis), Face(ti, Coord(lo, i), Coord(lo, j)));
    faces := StoreFaces(nbFaces, ti, Coord(lo, i), Coord(up, i), Coord(lo, j), Coord(up, j));
  }

  /**
   * `buildInitialSlice` without the mesh registration: the vertices of the
   * slice at `lo[axis]` (doubled coordinate `2 * lo[axis] + 1`) and its faces.
   */
  method BuildInitialSlice(lo: Point, up: Point, axis: int) returns (positions: seq<Point>, faces: seq<seq<int>>)
    requires 0 <= axis < 3 && Bounds(lo, up)
    requires Coord(lo, InPlaneAxes(axis).0) >= 0 && Coord(lo, InPlaneAxes(axis).1) >= 0
    ensures positions == SliceVertexList(lo, up, axis, Coord(lo, axis))
    ensures |faces| == NbFaces(lo, up, axis)
    ensures faces == SliceFaceList(lo, up, axis)
  {
    positions := SliceVertices(lo, up, axis, Coord(lo, axis));
    faces := SliceFaces(lo, up, axis);
  }

  /** The voxel `(loI + a, loJ + b)` of the slice at `pos`. */
  function SliceVoxel(axis: int, pos: int, loI: int, loJ: int): (nat, nat) -> Point
    requires 0 <= axis < 3
  {
    (a: nat, b: nat) => Place(axis, pos, loI + a, loJ + b)
  }

  /** The image stored in `image` has the domain `[lo, up]`. */
  predicate HasDomain(image: array3<Byte>, lo: Point, up: Point)
  {
    image.Length0 == up.x - lo.x + 1 && image.Length1 == up.y - lo.y + 1 && image.Length2 == up.z - lo.z + 1
  }

  /** The voxels of the slice at `pos`, in the order of the domain iterator. */
  function SliceVoxels(lo: Point, up: Point, axis: int, pos: int): seq<Point>
    requires 0 <= axis < 3 && Bounds(lo, up)
  {
    SliceCounts(lo, up, axis);
    Grid(Si(lo, up, axis), Sj(lo, up, axis),
         SliceVoxel(axis, pos, Coord(lo, InPlaneAxes(axis).0), Coord(lo, InPlaneAxes(axis).1)))
  }

  /** Voxel `(lo[i] + a, lo[j] + b)` of a slice through `[lo, up]` lies in that domain. */
  lemma SliceVoxelInDomain(image: array3<Byte>, lo: Point, up: Point, axis: int, pos: int, a: nat, b: nat)
    requires 0 <= axis < 3 && Bounds(lo, up) && HasDomain(image, lo, up)
    requires Coord(lo, axis) <= pos <= Coord(up, axis)
    requires a < Si(lo, up, axis) && b < Sj(lo, up, axis)
    ensures InArray(image, Sub(SliceVoxel(axis, pos, Coord(lo, InPlaneAxes(axis).0), Coord(lo, InPlaneAxes(axis).1))(a, b), lo))
  {
    var p := SliceVoxel(axis, pos, Coord(lo, InPlaneAxes(axis).0), Coord(lo, InPlaneAxes(axis).1))(a, b);
    assert p == Place(axis, pos, Coord(lo, InPlaneAxes(axis).0) + a, Coord(lo, InPlaneAxes(axis).1) + b);
    if axis == 0 {
      assert Sub(p, lo) == Point(pos - lo.x, a, b);
    } else if axis == 1 {
      assert Sub(p, lo) == Point(a, pos - lo.y, b);
    } else {
      assert Sub(p, lo) == Point(a, b, pos - lo.z);
    }
  }

  /** The slice at `pos` has `nb_faces` voxels, all of them in the domain of the image. */
  lemma SliceVoxelsInDomain(image: array3<Byte>, lo: Point, up: Point, axis: int, pos: int)
    requires 0 <= axis < 3 && Bounds(lo, up) && HasDomain(image, lo, up)
    requires Coord(lo, axis) <= pos <= Coord(up, axis)
    ensures |SliceVoxels(lo, up, axis, pos)| == NbFaces(lo, up, axis)
    ensures forall k | 0 <= k < |SliceVoxels(lo, up, axis, pos)| ::
              InArray(image, Sub(SliceVoxels(lo, up, axis, pos)[k], lo))
  {
    SliceCounts(lo, up, axis);
    var si, sj := Si(lo, up, axis), Sj(lo, up, axis);
    var voxel := SliceVoxel(axis, pos, Coord(lo, InPlaneAxes(axis).0), Coord(lo, InPlaneAxes(axis).1));
    GridLength(si, sj, voxel);
    forall k | 0 <= k < |SliceVoxels(lo, up, axis, pos)|
      ensures InArray(image, Sub(SliceVoxels(lo, up, axis, pos)[k], lo))
    {
      var a, b := GridOnto(si, sj, voxel, k);
      SliceVoxelInDomain(image, lo, up, axis, pos, a, b);
    }
  }

  /**
   * Face `k` of the slice mesh and colour `k` belong to the same cell: the
   * face of cell `(x, y)` is coloured by the voxel at `(x, y)` of the slice.
   */
  lemma {:induction false} FaceColoredByItsVoxel(lo: Point, up: Point, axis: int, pos: int, k: nat) returns (x: int, y: int)
    requires 0 <= axis < 3 && Bounds(lo, up)
    requires k < NbFaces(lo, up, axis)
    ensures Coord(lo, InPlaneAxes(axis).0) <= x <= Coord(up, InPlaneAxes(axis).0)
    ensures Coord(lo, InPlaneAxes(axis).1) <= y <= Coord(up, InPlaneAxes(axis).1)
    ensures k < |SliceFaceList(lo, up, axis)| && SliceFaceList(lo, up, axis)[k] == FaceCorners(Si(lo, up, axis) + 1, x, y)
    ensures k < |SliceVoxels(lo, up, axis, pos)| && SliceVoxels(lo, up, axis, pos)[k] == Place(axis, pos, x, y)
  {
    SliceCounts(lo, up, axis);
    var si, sj := Si(lo, up, axis), Sj(lo, up, axis);
    var loI, loJ := Coord(lo, InPlaneAxes(axis).0), Coord(lo, InPlaneAxes(axis).1);
    var face, voxel := Face(si + 1, loI, loJ), SliceVoxel(axis, pos, loI, loJ);
    GridLength(si, sj, face);
    var a, b := GridOnto(si, sj, face, k);
    GridLength(si, b, face);
    GridLength(si, b, voxel);
    GridIndex(si, sj, voxel, a, b);
    x, y := loI + a, loJ + b;
  }

  /** The value at domain point `p` of the image over `[lo, up]` stored in `image`. */
  function ImageAt(image: array3<Byte>, lo: Point, p: Point): Byte
    requires InArray(image, Sub(p, lo))
    reads image
  {
    At(image, Sub(p, lo))
  }

  /**
   * The colour loop over the slice domain, whose iterator runs the first
   * coordinate fastest: since the domain is one voxel thick along `axis`, it
   * visits the slice voxels row by row, `j` outer and `i` inner, and stores
   * the image value of each in the next of the `nbFaces` slots.
   */
  method StoreColors(image: array3<Byte>, lo: Point, nbFaces: nat, axis: int, pos: int, loI: int, upI: int, loJ: int, upJ: int)
    returns (colors: seq<Byte>)
    requires 0 <= axis < 3 && loI <= upI && loJ <= upJ
    requires var voxels := Grid(upI - loI + 1, upJ - loJ + 1, SliceVoxel(axis, pos, loI, loJ));
             |voxels| == nbFaces && forall k | 0 <= k < |voxels| :: InArray(image, Sub(voxels[k], lo))
    ensures var voxels := Grid(upI - loI + 1, upJ - loJ + 1, SliceVoxel(axis, pos, loI, loJ));
            |colors| == nbFaces && forall k | 0 <= k < nbFaces :: colors[k] == ImageAt(image, lo, voxels[k])
  {
    var si, sj := upI - loI + 1, upJ - loJ + 1;
    ghost var voxel := SliceVoxel(axis, pos, loI, loJ);
    ghost var voxels := Grid(si, sj, voxel);
    colors := seq(nbFaces, _ => 0);
    var idx := 0;
    for y := loJ to upJ + 1
      invariant |colors| == nbFaces
      invariant idx == |Grid(si, y - loJ, voxel)| <= nbFaces
      invariant forall k | 0 <= k < idx :: colors[k] == ImageAt(image, lo, voxels[k])
    {
      for x := loI to upI + 1
        invariant |colors| == nbFaces
        invariant idx == |Grid(si, y - loJ, voxel)| + (x - loI) <= nbFaces
        invariant forall k | 0 <= k < idx :: colors[k] == ImageAt(image, lo, voxels[k])
      {
        GridIndex(si, sj, voxel, x - loI, y - loJ);
        var p := Place(axis, pos, x, y);
        assert p == voxels[idx];
        colors := colors[idx := ImageAt(image, lo, p)];
        idx := idx + 1;
      }
      assert |Grid(si, y + 1 - loJ, voxel)| == |Grid(si, y - loJ, voxel)| + si;
    }
  }

  /**
   * `updateSlice` without the mesh update: the vertices of the slice at `pos`
   * (doubled coordinate `2 * pos + 1`), and one colour per face, the image
   * value at the slice voxel of that face.
   */
  method UpdateSlice(image: array3<Byte>, lo: Point, up: Point, axis: int, pos: int)
    returns (positions: seq<Point>, colors: seq<Byte>)
    requires 0 <= axis < 3 && Bounds(lo, up) && HasDomain(image, lo, up)
    requires Coord(lo, axis) <= pos <= Coord(up, axis)
    ensures positions == SliceVertexList(lo, up, axis, pos)
    ensures |colors| == NbFaces(lo, up, axis) == |SliceVoxels(lo, up, axis, pos)|
    ensures forall k | 0 <= k < |colors| ::
              InArray(image, Sub(SliceVoxels(lo, up, axis, pos)[k], lo)) &&
              colors[k] == ImageAt(image, lo, SliceVoxels(lo, up, axis, pos)[k])
  {
    var (i, j) := InPlaneAxes(axis);
    var nbFaces := NbFaces(lo, up, axis);
    positions := SliceVertices(lo, up, axis, pos);
    SliceVoxelsInDomain(image, lo, up, axis, pos);
    colors := StoreColors(image, lo, nbFaces, axis, pos, Coord(lo, i), Coord(up, i), Coord(lo, j), Coord(up, j));
  }
}
