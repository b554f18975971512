/**
 * Gray-scale morphology of the filtering program: the 6-neighbour dilation
 * and erosion (`makeDilation`, `makeErosion`) and the "Select lungs" step,
 * which closes the lung mask and then masks the output image with it.
 *
 * The specification works on values: a `Volume` is the content of an image,
 * indexed `[x][y][z]`, and `Contents` reads it off an `array3`.
 */
module Morphology {
  import opened Lattice

  type Volume = seq<seq<seq<Byte>>>

  /** `v` is a volume over the domain `d`. */
  ghost predicate Shaped(v: Volume, d: Dims)
  {
    && |v| == d.n0
    && (forall x | 0 <= x < d.n0 :: |v[x]| == d.n1)
    && (forall x, y | 0 <= x < d.n0 && 0 <= y < d.n1 :: |v[x][y]| == d.n2)
  }

  function Get(v: Volume, d: Dims, p: Point): Byte
    requires Shaped(v, d) && InDomain(d, p)
  {
    v[p.x][p.y][p.z]
  }

  /** The content of an image. */
  ghost function Contents(a: array3<Byte>): (v: Volume)
    reads a
    ensures Shaped(v, DimsOf(a))
    ensures forall p | InDomain(DimsOf(a), p) :: Get(v, DimsOf(a), p) == a[p.x, p.y, p.z]
  {
    seq(a.Length0, x requires 0 <= x < a.Length0 reads a =>
      seq(a.Length1, y requires 0 <= y < a.Length1 reads a =>
        seq(a.Length2, z requires 0 <= z < a.Length2 reads a => a[x, y, z])))
  }

  /** Two volumes over `d` with the same voxels are equal. */
  lemma VolumeExtensionality(v: Volume, w: Volume, d: Dims)
    requires Shaped(v, d) && Shaped(w, d)
    requires forall p | InDomain(d, p) :: Get(v, d, p) == Get(w, d, p)
    ensures v == w
  {
    forall x | 0 <= x < d.n0
      ensures v[x] == w[x]
    {
      forall y | 0 <= y < d.n1
        ensures v[x][y] == w[x][y]
      {
        forall z | 0 <= z < d.n2
          ensures v[x][y][z] == w[x][y][z]
        {
          assert Get(v, d, Point(x, y, z)) == Get(w, d, Point(x, y, z));
        }
      }
    }
  }

  /** Dilation takes maxima (`std::max`), erosion minima (`std::min`). */
  datatype Extremum = Max | Min

  function Pick(e: Extremum, a: Byte, b: Byte): Byte
  {
    match e
    case Max => if a < b then b else a
    case Min => if b < a then b else a
  }

  /** `a` is at least `b` for a maximum, at most `b` for a minimum. */
  predicate Dominates(e: Extremum, a: int, b: int)
  {
    match e
    case Max => a >= b
    case Min => a <= b
  }

  /**
   * The running value of the neighbour loop after axes `0..k-1`: the voxel
   * itself combined with its in-domain neighbours `p - dv[i]`, `p + dv[i]`.
   * (Voxels are read by indexing rather than through `Get`, which keeps the
   * facts about `Get` from chaining through nested filterings.)
   */
  function NeighbourhoodUpTo(e: Extremum, v: Volume, d: Dims, p: Point, k: nat): Byte
    requires Shaped(v, d) && InDomain(d, p) && k <= 3
    decreases k
  {
    if k == 0 then v[p.x][p.y][p.z]
    else
      var i := k - 1;
      var val := NeighbourhoodUpTo(e, v, d, p, i);
      var lower, upper := Shift(p, i, -1), Shift(p, i, 1);
      var val' := if Coord(p, i) > 0 then Pick(e, val, v[lower.x][lower.y][lower.z]) else val;
      if Coord(p, i) < DimExtent(d, i) - 1 then Pick(e, val', v[upper.x][upper.y][upper.z]) else val'
  }

  /** The new value of voxel `p`. */
  function FilterAt(e: Extremum, v: Volume, d: Dims, p: Point): Byte
    requires Shaped(v, d) && InDomain(d, p)
  {
    NeighbourhoodUpTo(e, v, d, p, 3)
  }

  /** Row `x` of the filtered volume. */
  function FilterRow(e: Extremum, v: Volume, d: Dims, x: nat): seq<seq<Byte>>
    requires Shaped(v, d) && x < d.n0
  {
    seq(d.n1, y requires 0 <= y < d.n1 =>
      seq(d.n2, z requires 0 <= z < d.n2 => FilterAt(e, v, d, Point(x, y, z))))
  }

  /**
   * `v` with its first `n` rows filtered. The volume is built row by row so
   * that its voxels are known through the contract, not by unfolding.
   */
  function FilterRows(e: Extremum, v: Volume, d: Dims, n: nat): (r: Volume)
    requires Shaped(v, d) && n <= d.n0
    ensures Shaped(r, d)
    ensures forall p | InDomain(d, p) :: Get(r, d, p) == if p.x < n then FilterAt(e, v, d, p) else Get(v, d, p)
    decreases n
  {
    if n == 0 then v else FilterRows(e, v, d, n - 1)[n - 1 := FilterRow(e, v, d, n - 1)]
  }

  /** The whole filtered volume; the domain is unchanged. */
  function Filter(e: Extremum, v: Volume, d: Dims): (r: Volume)
    requires Shaped(v, d)
    ensures Shaped(r, d)
    ensures forall p | InDomain(d, p) :: Get(r, d, p) == FilterAt(e, v, d, p)
  {
    FilterRows(e, v, d, d.n0)
  }

  function Dilate(v: Volume, d: Dims): Volume
    requires Shaped(v, d)
  {
    Filter(Max, v, d)
  }

  function Erode(v: Volume, d: Dims): Volume
    requires Shaped(v, d)
  {
    Filter(Min, v, d)
  }

  /** `k` successive filterings (none when `k <= 0`). */
  function Iterate(e: Extremum, v: Volume, d: Dims, k: int): (r: Volume)
    requires Shaped(v, d)
    ensures Shaped(r, d)
    decreases k
  {
    if k <= 0 then v else Filter(e, Iterate(e, v, d, k - 1), d)
  }

  /** `closing_radius` dilations followed by `closing_radius` erosions. */
  function Closing(v: Volume, d: Dims, radius: int): Volume
    requires Shaped(v, d)
  {
    Iterate(Min, Iterate(Max, v, d, radius), d, radius)
  }

  /** Pointwise order of volumes. */
  ghost predicate Below(f: Volume, g: Volume, d: Dims)
    requires Shaped(f, d) && Shaped(g, d)
  {
    forall p | InDomain(d, p) :: Get(f, d, p) <= Get(g, d, p)
  }

  /** The running value only moves up (maximum) or down (minimum) along the axes. */
  lemma {:induction false} NeighbourhoodUpToGrows(e: Extremum, v: Volume, d: Dims, p: Point, m: nat, k: nat)
    requires Shaped(v, d) && InDomain(d, p) && m <= k <= 3
    ensures Dominates(e, NeighbourhoodUpTo(e, v, d, p, k), NeighbourhoodUpTo(e, v, d, p, m))
    decreases k
  {
    if m < k {
      NeighbourhoodUpToGrows(e, v, d, p, m, k - 1);
    }
  }

  /** The running value is the value of `p` or of a visited neighbour. */
  lemma {:induction false} NeighbourhoodUpToAttained(e: Extremum, v: Volume, d: Dims, p: Point, k: nat)
    returns (q: Point)
    requires Shaped(v, d) && InDomain(d, p) && k <= 3
    ensures InDomain(d, q) && Near(p, q)
    ensures NeighbourhoodUpTo(e, v, d, p, k) == Get(v, d, q)
    decreases k
  {
    if k == 0 {
      q := p;
    } else {
      q := NeighbourhoodUpToAttained(e, v, d, p, k - 1);
      var step := AxisStep(e, v, d, p, k - 1);
      if NeighbourhoodUpTo(e, v, d, p, k) != NeighbourhoodUpTo(e, v, d, p, k - 1) {
        q := step;
      }
    }
  }

  /**
   * Axis `i` of the neighbour loop either keeps the running value or replaces
   * it by the value of the neighbour `step`.
   */
  lemma AxisStep(e: Extremum, v: Volume, d: Dims, p: Point, i: nat) returns (step: Point)
    requires Shaped(v, d) && InDomain(d, p) && i < 3
    ensures InDomain(d, step) && Near(p, step)
    ensures NeighbourhoodUpTo(e, v, d, p, i + 1) == NeighbourhoodUpTo(e, v, d, p, i)
         || NeighbourhoodUpTo(e, v, d, p, i + 1) == Get(v, d, step)
  {
    var lower, upper := Shift(p, i, -1), Shift(p, i, 1);
    var val := NeighbourhoodUpTo(e, v, d, p, i);
    var val' := if Coord(p, i) > 0 then Pick(e, val, Get(v, d, lower)) else val;
    step := p;
    if Coord(p, i) > 0 && val' != val {
      step := lower;
    }
    if Coord(p, i) < DimExtent(d, i) - 1 && NeighbourhoodUpTo(e, v, d, p, i + 1) != val' {
      step := upper;
    }
  }

  /**
   * `makeDilation` / `makeErosion` value at `p` dominates the voxel and each
   * of its in-domain 6-neighbours ...
   */
  lemma FilterAtDominates(e: Extremum, v: Volume, d: Dims, p: Point, q: Point)
    requires Shaped(v, d) && InDomain(d, p) && InDomain(d, q) && Near(p, q)
    ensures Dominates(e, FilterAt(e, v, d, p), Get(v, d, q))
  {
    // `q` is `p` or is visited by the neighbour loop at axis `i`
    var i := if q.x != p.x then 0 else if q.y != p.y then 1 else if q.z != p.z then 2 else -1;
    if i < 0 {
      NeighbourhoodUpToGrows(e, v, d, p, 0, 3);
    } else {
      AxisVisitsNeighbour(e, v, d, p, i, Coord(q, i) - Coord(p, i));
      assert q == Shift(p, i, Coord(q, i) - Coord(p, i));
      NeighbourhoodUpToGrows(e, v, d, p, i + 1, 3);
    }
  }

  /** Axis `i` of the neighbour loop takes the neighbour `p + delta * dv[i]` into account. */
  lemma AxisVisitsNeighbour(e: Extremum, v: Volume, d: Dims, p: Point, i: nat, delta: int)
    requires Shaped(v, d) && InDomain(d, p) && i < 3 && (delta == -1 || delta == 1)
    requires InDomain(d, Shift(p, i, delta))
    ensures Dominates(e, NeighbourhoodUpTo(e, v, d, p, i + 1), Get(v, d, Shift(p, i, delta)))
  {
  }

  /** ... and is the value of one of them: it is their maximum / minimum. */
  lemma FilterAtAttained(e: Extremum, v: Volume, d: Dims, p: Point) returns (q: Point)
    requires Shaped(v, d) && InDomain(d, p)
    ensures InDomain(d, q) && Near(p, q) && FilterAt(e, v, d, p) == Get(v, d, q)
  {
    q := NeighbourhoodUpToAttained(e, v, d, p, 3);
  }

  /** Dilation never lowers a voxel, erosion never raises one. */
  lemma DilationExtensiveErosionAntiExtensive(v: Volume, d: Dims)
    requires Shaped(v, d)
    ensures Below(v, Dilate(v, d), d)
    ensures Below(Erode(v, d), v, d)
  {
    forall p | InDomain(d, p)
      ensures Get(v, d, p) <= Get(Dilate(v, d), d, p) && Get(Erode(v, d), d, p) <= Get(v, d, p)
    {
      FilterAtDominates(Max, v, d, p, p);
      FilterAtDominates(Min, v, d, p, p);
    }
  }

  /** Both filters are monotone. */
  lemma FilterMonotone(e: Extremum, f: Volume, g: Volume, d: Dims)
    requires Shaped(f, d) && Shaped(g, d) && Below(f, g, d)
    ensures Below(Filter(e, f, d), Filter(e, g, d), d)
  {
    forall p | InDomain(d, p)
      ensures Get(Filter(e, f, d), d, p) <= Get(Filter(e, g, d), d, p)
    {
      if e == Max {
        var q := FilterAtAttained(e, f, d, p);
        FilterAtDominates(e, g, d, p, q);
        assert Get(f, d, q) <= Get(g, d, q);
      } else {
        var q := FilterAtAttained(e, g, d, p);
        FilterAtDominates(e, f, d, p, q);
        assert Get(f, d, q) <= Get(g, d, q);
      }
    }
  }

  /** Dilation and erosion form an adjunction: `Dilate(f) <= g` implies `f <= Erode(g)`. */
  lemma Adjunction(f: Volume, g: Volume, d: Dims)
    requires Shaped(f, d) && Shaped(g, d) && Below(Dilate(f, d), g, d)
    ensures Below(f, Erode(g, d), d)
  {
    forall p | InDomain(d, p)
      ensures Get(f, d, p) <= Get(Erode(g, d), d, p)
    {
      var q := FilterAtAttained(Min, g, d, p);
      FilterAtDominates(Max, f, d, q, p);
      assert Get(Dilate(f, d), d, q) <= Get(g, d, q);
    }
  }

  /** Filtering first and then iterating is iterating one more time. */
  lemma {:induction false} IterateFirst(e: Extremum, v: Volume, d: Dims, k: nat)
    requires Shaped(v, d)
    ensures Iterate(e, Filter(e, v, d), d, k) == Iterate(e, v, d, k + 1)
  {
    if k > 0 {
      IterateFirst(e, v, d, k - 1);
    }
  }

  /**
   * The adjunction carries over to `k` dilations and `k` erosions: when
   * `dilated` is `f` dilated `k` times and lies below `g`, then `f` lies below
   * `eroded`, which is `g` eroded `k` times.
   */
  lemma {:induction false} IteratedAdjunction(f: Volume, g: Volume, d: Dims, k: nat, dilated: Volume, eroded: Volume)
    requires Shaped(f, d) && Shaped(g, d)
    requires dilated == Iterate(Max, f, d, k) && eroded == Iterate(Min, g, d, k)
    requires Below(dilated, g, d)
    ensures Below(f, eroded, d)
    decreases k
  {
    if k > 0 {
      var previous := Iterate(Max, f, d, k - 1);
      var erodedOnce := Erode(g, d);
      Adjunction(previous, g, d);
      IterateFirst(Min, g, d, k - 1);
      IteratedAdjunction(f, erodedOnce, d, k - 1, previous, eroded);
    }
  }

  /**
   * The closing of "Select lungs" only adds to the lung image: every voxel
   * keeps at least its value.
   */
  lemma ClosingExtensive(v: Volume, d: Dims, radius: int)
    requires Shaped(v, d)
    ensures Below(v, Closing(v, d, radius), d)
  {
    if radius > 0 {
      var dilated := Iterate(Max, v, d, radius);
      IteratedAdjunction(v, dilated, d, radius, dilated, Closing(v, d, radius));
    }
  }

  /** A volume whose every voxel has its filtered value is the filtered volume. */
  lemma FilteredVolume(e: Extremum, v: Volume, d: Dims, w: Volume)
    requires Shaped(v, d) && Shaped(w, d)
    requires forall p | InDomain(d, p) :: Get(w, d, p) == FilterAt(e, v, d, p)
    ensures w == Filter(e, v, d)
  {
    VolumeExtensionality(w, Filter(e, v, d), d);
  }

  /** The neighbour loop at one point `p` of the image. */
  method NeighbourhoodValue(e: Extremum, image: array3<Byte>, p: Point) returns (val: Byte)
    requires InArray(image, p)
    ensures val == FilterAt(e, Contents(image), DimsOf(image), p)
  {
    ghost var v := Contents(image);
    ghost var d := DimsOf(image);
    val := image[p.x, p.y, p.z];
    assert Get(v, d, p) == val;
    for i := 0 to 3
      invariant val == NeighbourhoodUpTo(e, v, d, p, i)
    {
      if Coord(p, i) > 0 {
        var q := Shift(p, i, -1);
        assert Get(v, d, q) == image[q.x, q.y, q.z];
        val := Pick(e, val, image[q.x, q.y, q.z]);
      }
      if Coord(p, i) < Extent(image, i) - 1 {
        var q := Shift(p, i, 1);
        assert Get(v, d, q) == image[q.x, q.y, q.z];
        val := Pick(e, val, image[q.x, q.y, q.z]);
      }
    }
  }

  /** One line `(_, y, z)` of the loop of `FilterImage`. */
  method FilterLine(e: Extremum, image: array3<Byte>, output: array3<Byte>, y: nat, z: nat)
    requires SameShape(image, output) && image != output && y < image.Length1 && z < image.Length2
    modifies output
    ensures forall p | InArray(output, p) ::
              output[p.x, p.y, p.z] == if p.y == y && p.z == z then FilterAt(e, Contents(image), DimsOf(image), p) else old(output[p.x, p.y, p.z])
  {
    ghost var d := DimsOf(image);
    ghost var v := Contents(image);
    for x := 0 to image.Length0
      invariant forall p | InArray(output, p) ::
                  output[p.x, p.y, p.z] == if p.y == y && p.z == z && p.x < x then FilterAt(e, v, d, p) else old(output[p.x, p.y, p.z])
    {
      var val := NeighbourhoodValue(e, image, Point(x, y, z));
      assert Contents(image) == v;
      output[x, y, z] := val;
      forall p | InArray(output, p) && p.y == y && p.z == z && p.x == x
        ensures output[p.x, p.y, p.z] == FilterAt(e, v, d, p)
      {
        assert p == Point(x, y, z);
      }
    }
  }

  /** One plane `(_, _, z)` of the loop of `FilterImage`. */
  method FilterPlane(e: Extremum, image: array3<Byte>, output: array3<Byte>, z: nat)
    requires SameShape(image, output) && image != output && z < image.Length2
    modifies output
    ensures forall p | InArray(output, p) ::
              output[p.x, p.y, p.z] == if p.z == z then FilterAt(e, Contents(image), DimsOf(image), p) else old(output[p.x, p.y, p.z])
  {
    ghost var d := DimsOf(image);
    ghost var v := Contents(image);
    for y := 0 to image.Length1
      invariant forall p | InArray(output, p) ::
                  output[p.x, p.y, p.z] == if p.z == z && p.y < y then FilterAt(e, v, d, p) else old(output[p.x, p.y, p.z])
    {
      FilterLine(e, image, output, y, z);
      assert Contents(image) == v;
    }
  }

  /**
   * The shared loop of `makeDilation` and `makeErosion`: clone the image, then
   * write at every point the extremum over its in-domain 6-neighbours, read
   * from the unmodified input. The domain is visited plane by plane and line
   * by line, the first coordinate varying fastest.
   */
  method FilterImage(e: Extremum, image: array3<Byte>) returns (output: array3<Byte>)
    ensures fresh(output) && SameShape(output, image)
    ensures Contents(output) == Filter(e, Contents(image), DimsOf(image))
  {
    ghost var d := DimsOf(image);
    ghost var v := Contents(image);
    output := CopyImage(image);
    for z := 0 to image.Length2
      invariant forall p | InArray(output, p) && p.z < z :: output[p.x, p.y, p.z] == FilterAt(e, v, d, p)
    {
      FilterPlane(e, image, output, z);
      assert Contents(image) == v;
    }
    FilteredVolume(e, v, d, Contents(output));
  }

  /** `makeDilation`. */
  method MakeDilation(image: array3<Byte>) returns (output: array3<Byte>)
    ensures fresh(output) && SameShape(output, image)
    ensures Contents(output) == Dilate(Contents(image), DimsOf(image))
  {
    output := FilterImage(Max, image);
  }

  /** `makeErosion`. */
  method MakeErosion(image: array3<Byte>) returns (output: array3<Byte>)
    ensures fresh(output) && SameShape(output, image)
    ensures Contents(output) == Erode(Contents(image), DimsOf(image))
  {
    output := FilterImage(Min, image);
  }

  /** `k` successive calls of `makeDilation` (maximum) or `makeErosion` (minimum). */
  method RepeatFilter(e: Extremum, image: array3<Byte>, k: int) returns (result: array3<Byte>)
    ensures SameShape(result, image) && (result == image || fresh(result))
    ensures Contents(result) == Iterate(e, Contents(image), DimsOf(image), k)
  {
    ghost var d := DimsOf(image);
    ghost var original := Contents(image);
    result := image;
    var i := 0;
    while i < k
      invariant 0 <= i && (i <= k || i == 0)
      invariant SameShape(result, image) && (result == image || fresh(result))
      invariant Contents(result) == Iterate(e, original, d, i)
    {
      if e == Max {
        result := MakeDilation(result);
      } else {
        result := MakeErosion(result);
      }
      i := i + 1;
    }
  }

  /** The closing loops of "Select lungs": `radius` dilations, then `radius` erosions. */
  method CloseImage(image: array3<Byte>, radius: int) returns (closed: array3<Byte>)
    ensures SameShape(closed, image) && (closed == image || fresh(closed))
    ensures Contents(closed) == Closing(Contents(image), DimsOf(image), radius)
  {
    var dilated := RepeatFilter(Max, image, radius);
    closed := RepeatFilter(Min, dilated, radius);
  }

  /**
   * The masking loop of "Select lungs": every voxel of `output` whose mask
   * value is at most 128 becomes 0, the others keep their value. The voxel is
   * read before it is written (the right operand of the assignment is
   * evaluated first).
   */
  method MaskImage(mask: array3<Byte>, output: array3<Byte>)
    requires SameShape(mask, output) && mask != output
    modifies output
    ensures forall p | InArray(output, p) ::
              output[p.x, p.y, p.z] == if mask[p.x, p.y, p.z] > 128 then old(output[p.x, p.y, p.z]) else 0
  {
    for z := 0 to output.Length2
      invariant forall p | InArray(output, p) ::
                  output[p.x, p.y, p.z] == if Before(p, 0, 0, z) then (if mask[p.x, p.y, p.z] > 128 then old(output[p.x, p.y, p.z]) else 0) else old(output[p.x, p.y, p.z])
    {
      for y := 0 to output.Length1
        invariant forall p | InArray(output, p) ::
                    output[p.x, p.y, p.z] == if Before(p, 0, y, z) then (if mask[p.x, p.y, p.z] > 128 then old(output[p.x, p.y, p.z]) else 0) else old(output[p.x, p.y, p.z])
      {
        for x := 0 to output.Length0
          invariant forall p | InArray(output, p) ::
                      output[p.x, p.y, p.z] == if Before(p, x, y, z) then (if mask[p.x, p.y, p.z] > 128 then old(output[p.x, p.y, p.z]) else 0) else old(output[p.x, p.y, p.z])
        {
          output[x, y, z] := if mask[x, y, z] > 128 then output[x, y, z] else 0;
        }
      }
    }
  }

  /**
   * "Select lungs": close the filled lung image, which becomes the new lung
   * image, and mask the output image with it. Since the closing only adds to
   * the lung image, no output voxel inside the filled lungs is cleared.
   */
  method SelectLungs(lungImage: array3<Byte>, outputImage: array3<Byte>, closingRadius: int)
    returns (closed: array3<Byte>)
    requires SameShape(lungImage, outputImage) && lungImage != outputImage
    modifies outputImage
    ensures SameShape(closed, lungImage) && closed != outputImage
    ensures Contents(closed) == Closing(old(Contents(lungImage)), DimsOf(lungImage), closingRadius)
    ensures forall p | InArray(outputImage, p) ::
              outputImage[p.x, p.y, p.z] == if closed[p.x, p.y, p.z] > 128 then old(outputImage[p.x, p.y, p.z]) else 0
    ensures forall p | InArray(outputImage, p) && old(lungImage[p.x, p.y, p.z]) > 128 ::
              outputImage[p.x, p.y, p.z] == old(outputImage[p.x, p.y, p.z])
  {
    ghost var d := DimsOf(lungImage);
    ghost var lung := Contents(lungImage);
    closed := CloseImage(lungImage, closingRadius);
    ghost var closedContents := Contents(closed);
    MaskImage(closed, outputImage);
    assert Contents(closed) == closedContents;
    ClosingExtensive(lung, d, closingRadius);
    forall p | InArray(outputImage, p) && old(lungImage[p.x, p.y, p.z]) > 128
      ensures closed[p.x, p.y, p.z] > 128
    {
      assert Get(lung, d, p) <= Get(closedContents, d, p);
    }
  }
}
