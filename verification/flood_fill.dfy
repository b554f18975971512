/**
 * The seeded flood fill of the filtering program (`fillSurface`).
 *
 * An all-zero image is seeded from boundary surfels: for each surfel the voxel
 * outside the surface becomes a barrier (1) and the voxel inside becomes 255
 * and is queued. The queue is then drained: every popped voxel paints its
 * in-domain 6-neighbours that still hold 0 with 255 and queues them.
 *
 * A surfel is represented by the two voxels it separates (the directly and the
 * indirectly incident voxel along its orthogonal direction); `inverse` swaps
 * which of the two is inside.
 */
module FloodFill {
  import opened Lattice

  /** A boundary surfel, seen through the two voxels it separates. */
  datatype Seed = Seed(direct: Point, indirect: Point)

  /** The voxel a seed paints 255 (`int_voxel`). */
  function Interior(s: Seed, inverse: bool): Point
  {
    if inverse then s.indirect else s.direct
  }

  /** The voxel a seed turns into a barrier (`ext_voxel`). */
  function Exterior(s: Seed, inverse: bool): Point
  {
    if inverse then s.direct else s.indirect
  }

  /** Both voxels of every seed lie in the domain. */
  predicate SeedsInside(d: Dims, seeds: seq<Seed>)
  {
    forall k | 0 <= k < |seeds| :: InDomain(d, seeds[k].direct) && InDomain(d, seeds[k].indirect)
  }

  /** The queue after seeding: the interior voxels, in seed order. */
  function Interiors(seeds: seq<Seed>, inverse: bool): (q: seq<Point>)
    ensures |q| == |seeds|
    ensures forall k | 0 <= k < |seeds| :: q[k] == Interior(seeds[k], inverse)
  {
    if |seeds| == 0 then []
    else Interiors(seeds[..|seeds| - 1], inverse) + [Interior(seeds[|seeds| - 1], inverse)]
  }

  /** The seed writes one of its two voxels at `p`. */
  predicate Mentions(s: Seed, inverse: bool, p: Point)
  {
    p == Interior(s, inverse) || p == Exterior(s, inverse)
  }

  /**
   * The value of voxel `p` once every seed has been written: the last seed to
   * write `p` decides, and within one seed the interior is written second.
   */
  function SeedValue(seeds: seq<Seed>, inverse: bool, p: Point): (v: Byte)
    ensures v == 0 || v == 1 || v == 255
    ensures v == 255 ==> p in Interiors(seeds, inverse)
  {
    if |seeds| == 0 then 0
    else
      var s := seeds[|seeds| - 1];
      if p == Interior(s, inverse) then 255
      else if p == Exterior(s, inverse) then 1
      else SeedValue(seeds[..|seeds| - 1], inverse, p)
  }

  /** A voxel stays 0 after seeding exactly when no seed writes it. */
  lemma {:induction false} SeedValueZeroIffUnwritten(seeds: seq<Seed>, inverse: bool, p: Point)
    ensures SeedValue(seeds, inverse, p) == 0 <==> forall k | 0 <= k < |seeds| :: !Mentions(seeds[k], inverse, p)
  {
    if |seeds| > 0 {
      var n := |seeds| - 1;
      var prefix := seeds[..n];
      SeedValueZeroIffUnwritten(prefix, inverse, p);
      if !Mentions(seeds[n], inverse, p) {
        assert SeedValue(seeds, inverse, p) == SeedValue(prefix, inverse, p);
        assert forall k | 0 <= k < n :: prefix[k] == seeds[k];
      }
    }
  }

  /**
   * The last seed to write `p` decides its value: 255 when `p` is that seed's
   * interior voxel, 1 when it is only its exterior voxel.
   */
  lemma {:induction false} SeedValueIsLastWrite(seeds: seq<Seed>, inverse: bool, p: Point, k: int)
    requires 0 <= k < |seeds| && Mentions(seeds[k], inverse, p)
    requires forall j | k < j < |seeds| :: !Mentions(seeds[j], inverse, p)
    ensures SeedValue(seeds, inverse, p) == if p == Interior(seeds[k], inverse) then 255 else 1
  {
    var n := |seeds| - 1;
    if k < n {
      var prefix := seeds[..n];
      assert !Mentions(seeds[n], inverse, p);
      assert forall j | k < j < n :: prefix[j] == seeds[j];
      SeedValueIsLastWrite(prefix, inverse, p, k);
    }
  }

  /** Every in-domain 6-neighbour of `p` along the first `k` axes is nonzero. */
  ghost predicate NeighboursFilled(a: array3<Byte>, p: Point, k: int)
    requires 0 <= k <= 3
    reads a
  {
    forall i, delta | 0 <= i < k && (delta == -1 || delta == 1) && InArray(a, Shift(p, i, delta)) ::
      At(a, Shift(p, i, delta)) != 0
  }

  /** `a` and `b` have no element in common. */
  ghost predicate Disjoint(a: seq<Point>, b: seq<Point>)
  {
    forall i, j | 0 <= i < |a| && 0 <= j < |b| :: a[i] != b[j]
  }

  lemma DistinctAppend(a: seq<Point>, b: seq<Point>)
    requires Distinct(a) && Distinct(b) && Disjoint(a, b)
    ensures Distinct(a + b)
  {
    forall i, j | 0 <= i < j < |a + b|
      ensures (a + b)[i] != (a + b)[j]
    {
      if j < |a| {
        assert (a + b)[i] == a[i] && (a + b)[j] == a[j];
      } else if i < |a| {
        assert (a + b)[i] == a[i] && (a + b)[j] == b[j - |a|];
      } else {
        assert (a + b)[i] == b[i - |a|] && (a + b)[j] == b[j - |a|];
      }
    }
  }

  /** Painting never clears a voxel, so a voxel whose neighbours were all nonzero keeps that property. */
  twostate lemma FilledStaysFilled(a: array3<Byte>)
    requires forall q | InArray(a, q) && old(At(a, q)) != 0 :: At(a, q) != 0
    ensures forall r | old(NeighboursFilled(a, r, 3)) :: NeighboursFilled(a, r, 3)
  {
    forall r | old(NeighboursFilled(a, r, 3))
      ensures NeighboursFilled(a, r, 3)
    {
      forall i, delta | 0 <= i < 3 && (delta == -1 || delta == 1) && InArray(a, Shift(r, i, delta))
        ensures At(a, Shift(r, i, delta)) != 0
      {
        assert old(At(a, Shift(r, i, delta))) != 0;
      }
    }
  }

  /** One seed: write 1 at its exterior voxel, then 255 at its interior voxel. */
  method PlantSeed(output: array3<Byte>, s: Seed, inverse: bool)
    requires InArray(output, s.direct) && InArray(output, s.indirect)
    modifies output
    ensures forall p | InArray(output, p) ::
              At(output, p) == if p == Interior(s, inverse) then 255
                               else if p == Exterior(s, inverse) then 1
                               else old(At(output, p))
  {
    var intP, extP := Interior(s, inverse), Exterior(s, inverse);
    output[extP.x, extP.y, extP.z] := 1;
    output[intP.x, intP.y, intP.z] := 255;
  }

  /** Seeding: each seed queues its interior voxel, writes 1 outside, then 255 inside. */
  method PlantSeeds(d: Dims, seeds: seq<Seed>, inverse: bool) returns (output: array3<Byte>, queue: seq<Point>)
    requires SeedsInside(d, seeds)
    ensures fresh(output) && DimsOf(output) == d
    ensures forall p | InArray(output, p) :: At(output, p) == SeedValue(seeds, inverse, p)
    ensures queue == Interiors(seeds, inverse)
  {
    output := new Byte[d.n0, d.n1, d.n2]((x, y, z) => 0);
    queue := [];
    for k := 0 to |seeds|
      invariant DimsOf(output) == d
      invariant forall p | InArray(output, p) :: At(output, p) == SeedValue(seeds[..k], inverse, p)
      invariant queue == Interiors(seeds[..k], inverse)
    {
      queue := queue + [Interior(seeds[k], inverse)];
      PlantSeed(output, seeds[k], inverse);
      assert seeds[..k + 1][..k] == seeds[..k];
    }
    assert seeds[..|seeds|] == seeds;
  }

  /** One neighbour test of the flood: a voxel holding 0 is painted 255 (and is then pushed). */
  method PaintIfZero(output: array3<Byte>, q: Point) returns (painted: bool)
    requires InArray(output, q)
    modifies output
    ensures painted <==> old(At(output, q)) == 0
    ensures At(output, q) == if painted then 255 else old(At(output, q))
    ensures forall r | InArray(output, r) && r != q :: At(output, r) == old(At(output, r))
  {
    painted := output[q.x, q.y, q.z] == 0;
    if painted {
      output[q.x, q.y, q.z] := 255;
    }
  }

  /** The two neighbour tests of the flood along axis `i`, lower neighbour first. */
  method VisitAxis(output: array3<Byte>, p: Point, i: int) returns (added: seq<Point>)
    requires InArray(output, p) && 0 <= i < 3
    modifies output
    ensures forall delta | (delta == -1 || delta == 1) && InArray(output, Shift(p, i, delta)) ::
              At(output, Shift(p, i, delta)) != 0
    ensures forall r | InArray(output, r) :: At(output, r) == if r in added then 255 else old(At(output, r))
    ensures forall k | 0 <= k < |added| :: InArray(output, added[k]) && old(At(output, added[k])) == 0
    ensures forall k | 0 <= k < |added| :: added[k] == Shift(p, i, -1) || added[k] == Shift(p, i, 1)
    ensures Distinct(added)
  {
    added := [];
    var q := Shift(p, i, -1);
    if Coord(p, i) > 0 {
      var painted := PaintIfZero(output, q);
      if painted {
        added := [q];
      }
    }
    var r := Shift(p, i, 1);
    if Coord(p, i) < Extent(output, i) - 1 {
      var painted := PaintIfZero(output, r);
      if painted {
        added := added + [r];
      }
    }
  }

  /**
   * The body of the flood loop for one popped voxel `p`: every in-domain
   * 6-neighbour holding 0 is painted 255 and reported in `added`, in push order.
   */
  method Visit(output: array3<Byte>, p: Point) returns (added: seq<Point>)
    requires InArray(output, p)
    modifies output
    ensures NeighboursFilled(output, p, 3)
    ensures forall r | InArray(output, r) :: At(output, r) == if r in added then 255 else old(At(output, r))
    ensures forall k | 0 <= k < |added| :: InArray(output, added[k]) && old(At(output, added[k])) == 0
    ensures forall k | 0 <= k < |added| :: Adjacent(p, added[k])
    ensures Distinct(added)
  {
    added := [];
    for i := 0 to 3
      invariant NeighboursFilled(output, p, i)
      invariant forall r | InArray(output, r) :: At(output, r) == if r in added then 255 else old(At(output, r))
      invariant forall k | 0 <= k < |added| :: InArray(output, added[k]) && old(At(output, added[k])) == 0
      invariant forall k | 0 <= k < |added| :: Adjacent(p, added[k])
      invariant Distinct(added)
    {
      label BeforeAxis:
      var step := VisitAxis(output, p, i);
      assert Disjoint(added, step) by {
        forall a, b | 0 <= a < |added| && 0 <= b < |step|
          ensures added[a] != step[b]
        {
          assert old@BeforeAxis(At(output, added[a])) == 255;
        }
      }
      DistinctAppend(added, step);
      added := added + step;
    }
  }

  /**
   * How the flood reached each pushed voxel: `pushed[k]` is a 6-neighbour of
   * `from[k]`, the voxel being visited when it was pushed, which is an initially
   * queued voxel or an earlier push.
   */
  ghost predicate Reached(initial: seq<Point>, pushed: seq<Point>, from: seq<Point>)
  {
    |from| == |pushed| &&
    forall k | 0 <= k < |pushed| :: Adjacent(from[k], pushed[k]) && (from[k] in initial || from[k] in pushed[..k])
  }

  /** Pushing 6-neighbours of a queued voxel `p` extends the record of how voxels were reached. */
  lemma ReachedExtend(initial: seq<Point>, pushed: seq<Point>, from: seq<Point>, p: Point, added: seq<Point>)
    requires Reached(initial, pushed, from)
    requires p in initial || p in pushed
    requires forall k | 0 <= k < |added| :: Adjacent(p, added[k])
    ensures Reached(initial, pushed + added, from + seq(|added|, _ => p))
  {
    var all, allFrom := pushed + added, from + seq(|added|, _ => p);
    forall k | 0 <= k < |all|
      ensures Adjacent(allFrom[k], all[k]) && (allFrom[k] in initial || allFrom[k] in all[..k])
    {
      if k < |pushed| {
        assert all[..k] == pushed[..k];
      } else {
        assert all[..k][..|pushed|] == pushed;
        assert allFrom[k] == p && all[k] == added[k - |pushed|];
      }
    }
  }

  /**
   * A region the flood cannot enter: it holds no initially queued voxel, and
   * every in-domain voxel just outside it next to one of its voxels is neither
   * initially queued nor pushed. Then no pushed voxel lies in the region.
   */
  lemma {:induction false} SealedRegionNotReached(d: Dims, initial: seq<Point>, pushed: seq<Point>, from: seq<Point>,
                                                  region: set<Point>, n: nat)
    requires Reached(initial, pushed, from) && n <= |pushed|
    requires forall k | 0 <= k < |initial| :: InDomain(d, initial[k]) && initial[k] !in region
    requires forall k | 0 <= k < |pushed| :: InDomain(d, pushed[k])
    requires forall q, r | q in region && InDomain(d, r) && r !in region && Adjacent(r, q) :: r !in initial && r !in pushed
    ensures forall k | 0 <= k < n :: pushed[k] !in region
  {
    if n > 0 {
      var k := n - 1;
      SealedRegionNotReached(d, initial, pushed, from, region, k);
      var r := from[k];
      if r in pushed[..k] {
        var j :| 0 <= j < k && pushed[j] == r;
        assert InDomain(d, r) && r !in region;
      } else {
        assert r in initial;
      }
    }
  }

  /** The values of the image stored in `a`, by voxel. */
  ghost function Snapshot(a: array3<Byte>): (m: imap<Point, Byte>)
    reads a
    ensures forall p | InArray(a, p) :: p in m && m[p] == At(a, p)
  {
    imap p | InArray(a, p) :: At(a, p)
  }

  /**
   * What the flood loop keeps: every queued voxel is in the domain; the image
   * is `init` with exactly the pushed voxels painted 255, each of which held 0
   * in `init` and was pushed once; `zeros` is the set of voxels holding 0; and
   * every voxel that holds 255 or was queued initially, and is no longer
   * waiting in the queue, has all its in-domain 6-neighbours nonzero. Every
   * queued voxel was queued initially or pushed, and every push is a
   * 6-neighbour of a voxel queued before it (`from`).
   */
  ghost predicate FloodInvariant(a: array3<Byte>, init: imap<Point, Byte>, initial: seq<Point>,
                                 queue: seq<Point>, pushed: seq<Point>, from: seq<Point>, zeros: set<Point>)
    reads a
  {
    (forall k | 0 <= k < |queue| :: InArray(a, queue[k]) && (queue[k] in initial || queue[k] in pushed)) &&
    Reached(initial, pushed, from) &&
    (forall p | InArray(a, p) :: p in init && At(a, p) == if p in pushed then 255 else init[p]) &&
    (forall k | 0 <= k < |pushed| :: InArray(a, pushed[k]) && pushed[k] in init && init[pushed[k]] == 0) &&
    Distinct(pushed) &&
    (forall p | InArray(a, p) :: p in zeros <==> At(a, p) == 0) &&
    (forall r | InArray(a, r) && (At(a, r) == 255 || r in initial) && r !in queue :: NeighboursFilled(a, r, 3))
  }

  /**
   * One iteration of the flood loop: pop the front voxel and visit its
   * neighbours; the voxels it paints (`added`, all 6-neighbours of it) are
   * pushed at the back of the queue.
   */
  method FloodStep(output: array3<Byte>, ghost init: imap<Point, Byte>, ghost initial: seq<Point>,
                   queue: seq<Point>, ghost pushed: seq<Point>, ghost from: seq<Point>, ghost zeros: set<Point>)
    returns (nextQueue: seq<Point>, added: seq<Point>, ghost nextPushed: seq<Point>,
             ghost nextFrom: seq<Point>, ghost nextZeros: set<Point>)
    requires |queue| > 0 && FloodInvariant(output, init, initial, queue, pushed, from, zeros)
    modifies output
    ensures nextQueue == queue[1..] + added && nextPushed == pushed + added
    ensures forall k | 0 <= k < |added| :: Adjacent(queue[0], added[k])
    ensures FloodInvariant(output, init, initial, nextQueue, nextPushed, nextFrom, nextZeros)
    ensures nextZeros < zeros || (nextZeros == zeros && |nextQueue| < |queue|)
  {
    var p := queue[0];
    added := Visit(output, p);
    ghost var wasZero := set k | 0 <= k < |added| :: added[k];
    assert Disjoint(pushed, added) by {
      forall i, j | 0 <= i < |pushed| && 0 <= j < |added|
        ensures pushed[i] != added[j]
      {
        assert old(At(output, added[j])) == 0;
        assert old(At(output, pushed[i])) == 255;
      }
    }
    DistinctAppend(pushed, added);
    nextPushed := pushed + added;
    if |added| > 0 {
      assert added[0] in zeros;
    }
    nextZeros := zeros - wasZero;
    nextQueue := queue[1..] + added;
    ReachedExtend(initial, pushed, from, p, added);
    nextFrom := from + seq(|added|, _ => p);
    assert forall k | 0 <= k < |nextQueue| :: nextQueue[k] in initial || nextQueue[k] in nextPushed by {
      forall k | 0 <= k < |nextQueue|
        ensures nextQueue[k] in initial || nextQueue[k] in nextPushed
      {
        if k < |queue| - 1 {
          assert nextQueue[k] == queue[k + 1];
        } else {
          assert nextQueue[k] == nextPushed[|pushed| + k - (|queue| - 1)];
        }
      }
    }
    FilledStaysFilled(output);
    forall r | InArray(output, r) && (At(output, r) == 255 || r in initial) && r !in nextQueue
      ensures NeighboursFilled(output, r, 3)
    {
      if r != p {
        assert r !in added && r !in queue;
        assert old(NeighboursFilled(output, r, 3));
      }
    }
  }

  /**
   * The flood loop. Starting from a queue that holds every voxel valued 255,
   * it only turns 0 into 255, pushes each voxel at most once (`pushed` is the
   * sequence of pushes), and leaves every 255 voxel and every initially queued
   * voxel with all its in-domain 6-neighbours nonzero. Each pushed voxel is a
   * 6-neighbour of an initially queued voxel or of an earlier push.
   */
  method Flood(output: array3<Byte>, initial: seq<Point>) returns (ghost pushed: seq<Point>, ghost from: seq<Point>)
    requires forall k | 0 <= k < |initial| :: InArray(output, initial[k])
    requires forall p | InArray(output, p) && At(output, p) == 255 :: p in initial
    modifies output
    ensures forall p | InArray(output, p) :: At(output, p) == if p in pushed then 255 else old(At(output, p))
    ensures forall k | 0 <= k < |pushed| :: InArray(output, pushed[k]) && old(At(output, pushed[k])) == 0
    ensures Distinct(pushed)
    ensures forall r | InArray(output, r) && (At(output, r) == 255 || r in initial) :: NeighboursFilled(output, r, 3)
    ensures Reached(initial, pushed, from)
  {
    ghost var init := Snapshot(output);
    var queue := initial;
    pushed, from := [], [];
    ghost var zeros := set x, y, z | 0 <= x < output.Length0 && 0 <= y < output.Length1 && 0 <= z < output.Length2 &&
                                      output[x, y, z] == 0 :: Point(x, y, z);
    assert forall p | InArray(output, p) :: p in zeros <==> At(output, p) == 0 by {
      forall p | InArray(output, p) && At(output, p) == 0
        ensures p in zeros
      {
        assert p == Point(p.x, p.y, p.z);
      }
    }
    while |queue| > 0
      invariant FloodInvariant(output, init, initial, queue, pushed, from, zeros)
      decreases zeros, |queue|
    {
      var added;
      queue, added, pushed, from, zeros := FloodStep(output, init, initial, queue, pushed, from, zeros);
    }
  }

  /**
   * A region of the domain sealed off from the interior seed voxels: none of
   * them lies in it, and every in-domain voxel just outside it, next to one of
   * its voxels, is nonzero after seeding and is not an interior seed voxel.
   */
  ghost predicate Sealed(d: Dims, seeds: seq<Seed>, inverse: bool, region: set<Point>)
  {
    (forall k | 0 <= k < |seeds| :: Interior(seeds[k], inverse) !in region) &&
    forall q, r | q in region && InDomain(d, r) && r !in region && Adjacent(r, q) ::
      SeedValue(seeds, inverse, r) != 0 && r !in Interiors(seeds, inverse)
  }

  /**
   * `fillSurface`: seed an all-zero image over the domain `d`, then flood.
   * Every value is 0, 1 or 255; barrier voxels and every voxel the seeds wrote
   * keep their seeded value; only unseeded voxels are flooded (`pushed` lists
   * each of them once); and no voxel holding 255, and no interior seed voxel,
   * has an in-domain 6-neighbour holding 0. The flood spreads only through
   * 6-neighbours: a sealed region keeps its seeded values, so a voxel cut off
   * from every interior seed voxel by nonzero voxels stays 0.
   */
  method FillSurface(d: Dims, seeds: seq<Seed>, inverse: bool)
    returns (output: array3<Byte>, ghost pushed: seq<Point>, ghost from: seq<Point>)
    requires SeedsInside(d, seeds)
    ensures fresh(output) && DimsOf(output) == d
    ensures forall p | InArray(output, p) :: At(output, p) == 0 || At(output, p) == 1 || At(output, p) == 255
    ensures forall p | InArray(output, p) ::
              At(output, p) == SeedValue(seeds, inverse, p) ||
              (SeedValue(seeds, inverse, p) == 0 && At(output, p) == 255)
    ensures Distinct(pushed)
    ensures forall p | InArray(output, p) :: p in pushed <==> SeedValue(seeds, inverse, p) == 0 && At(output, p) == 255
    ensures forall r | InArray(output, r) && (At(output, r) == 255 || r in Interiors(seeds, inverse)) ::
              NeighboursFilled(output, r, 3)
    ensures Reached(Interiors(seeds, inverse), pushed, from)
    ensures forall region | Sealed(d, seeds, inverse, region) ::
              forall p | p in region && InArray(output, p) :: At(output, p) == SeedValue(seeds, inverse, p)
  {
    var queue;
    output, queue := PlantSeeds(d, seeds, inverse);
    pushed, from := Flood(output, queue);
    forall region | Sealed(d, seeds, inverse, region)
      ensures forall p | p in region && InArray(output, p) :: At(output, p) == SeedValue(seeds, inverse, p)
    {
      SealedRegionNotReached(d, queue, pushed, from, region, |pushed|);
    }
  }
}
