/**
 * Integer lattice points, byte-valued voxels and the axis arithmetic shared
 * by the thinning, filtering and viewing programs.
 *
 * Images are stored in `array3` values indexed from 0: the voxel `a[x, y, z]`
 * stands for the domain point `lower + (x, y, z)`, so a domain test such as
 * `p[i] > lo[i]` becomes `Coord(p, i) > 0`.
 */
module Lattice {

  /** A point of Z^3 (DGtal's `Z3i::Point`). */
  datatype Point = Point(x: int, y: int, z: int)

  /** The value type of a gray-scale image (`unsigned char`). */
  type Byte = b: int | 0 <= b < 256

  /** Coordinate `k` of `p` (`p[k]`). */
  function Coord(p: Point, k: int): int
    requires 0 <= k < 3
  {
    if k == 0 then p.x else if k == 1 then p.y else p.z
  }

  /** `p + delta * dv[k]`, where `dv[k]` is the k-th unit vector. */
  function Shift(p: Point, k: int, delta: int): Point
    requires 0 <= k < 3
  {
    if k == 0 then Point(p.x + delta, p.y, p.z)
    else if k == 1 then Point(p.x, p.y + delta, p.z)
    else Point(p.x, p.y, p.z + delta)
  }

  /** Component-wise sum and difference of points. */
  function Add(p: Point, q: Point): Point
  {
    Point(p.x + q.x, p.y + q.y, p.z + q.z)
  }

  function Sub(p: Point, q: Point): Point
  {
    Point(p.x - q.x, p.y - q.y, p.z - q.z)
  }

  /** `Point::diagonal(c)`. */
  function Diagonal(c: int): Point
  {
    Point(c, c, c)
  }

  /** The extents of an image domain translated to the origin: the voxels `[0, n0) x [0, n1) x [0, n2)`. */
  datatype Dims = Dims(n0: nat, n1: nat, n2: nat)

  function DimsOf<T>(a: array3<T>): Dims
  {
    Dims(a.Length0, a.Length1, a.Length2)
  }

  function DimExtent(d: Dims, k: int): nat
    requires 0 <= k < 3
  {
    if k == 0 then d.n0 else if k == 1 then d.n1 else d.n2
  }

  predicate InDomain(d: Dims, p: Point)
  {
    0 <= p.x < d.n0 && 0 <= p.y < d.n1 && 0 <= p.z < d.n2
  }

  /** The length of the array along axis `k`. */
  function Extent<T>(a: array3<T>, k: int): nat
    requires 0 <= k < 3
  {
    DimExtent(DimsOf(a), k)
  }

  /** `p` is a voxel of the image stored in `a`. */
  predicate InArray<T>(a: array3<T>, p: Point)
  {
    InDomain(DimsOf(a), p)
  }

  /** Both arrays have the same domain. */
  predicate SameShape<T, U>(a: array3<T>, b: array3<U>)
  {
    DimsOf(a) == DimsOf(b)
  }

  /** The voxel of the image stored in `a` at `p` (`image(p)`). */
  function At<T>(a: array3<T>, p: Point): T
    requires InArray(a, p)
    reads a
  {
    a[p.x, p.y, p.z]
  }

  function Abs(n: int): nat
  {
    if n < 0 then -n else n
  }

  /** `q` is `p` or one of its six face neighbours. */
  predicate Near(p: Point, q: Point)
  {
    Abs(p.x - q.x) + Abs(p.y - q.y) + Abs(p.z - q.z) <= 1
  }

  /** `q` is one of the six face neighbours of `p` (6-adjacency). */
  predicate Adjacent(p: Point, q: Point)
  {
    Near(p, q) && p != q
  }

  /** No element occurs twice in `q`. */
  ghost predicate Distinct(q: seq<Point>)
  {
    forall a, b | 0 <= a < b < |q| :: q[a] != q[b]
  }

  /**
   * A domain is traversed with the first coordinate varying fastest. `p` is
   * visited before the cursor `(cx, cy, cz)` is.
   */
  predicate Before(p: Point, cx: int, cy: int, cz: int)
  {
    p.z < cz || (p.z == cz && (p.y < cy || (p.y == cy && p.x < cx)))
  }

  /** An axis-aligned box `[lo, up]` of lattice points (a `Domain`). */
  datatype Box = Box(lo: Point, up: Point)

  predicate InBox(b: Box, p: Point)
  {
    b.lo.x <= p.x <= b.up.x && b.lo.y <= p.y <= b.up.y && b.lo.z <= p.z <= b.up.z
  }

  /** The domain of the image stored in `a`, translated to the origin. */
  function ArrayDomain<T>(a: array3<T>): (b: Box)
    ensures forall p :: InBox(b, p) <==> InArray(a, p)
  {
    Box(Point(0, 0, 0), Point(a.Length0 - 1, a.Length1 - 1, a.Length2 - 1))
  }

  /** The copy constructor of an image: a fresh array holding the same values. */
  method CopyImage<T>(a: array3<T>) returns (b: array3<T>)
    ensures fresh(b) && SameShape(a, b)
    ensures forall x, y, z | 0 <= x < a.Length0 && 0 <= y < a.Length1 && 0 <= z < a.Length2 ::
              b[x, y, z] == a[x, y, z]
  {
    b := new T[a.Length0, a.Length1, a.Length2]((x, y, z)
      requires 0 <= x < a.Length0 && 0 <= y < a.Length1 && 0 <= z < a.Length2 reads a => a[x, y, z]);
  }
}
