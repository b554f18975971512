/**
 * Thresholding and component filtering of the filtering and viewing programs
 * (`extractDigitalSurface`).
 *
 * A gray-scale image is thresholded into a binary image; the connected digital
 * surfaces of that binary image are sorted by decreasing size; the longest
 * prefix of components whose size reaches the minimum is kept; the surfels of
 * the kept components are gathered in order, each labelled with the rank of
 * its component; and the first kept component becomes the main surface.
 */
module SurfaceExtraction {
  import opened Lattice

  /** A signed surfel, by its Khalimsky coordinates and its orientation. */
  datatype Surfel = Surfel(coords: Point, positive: bool)

  /** A connected digital surface, by its surfel range. */
  type Component = seq<Surfel>

  /** `std::transform` of the domain by `p -> image(p) > t`: strict thresholding. */
  method Threshold(image: array3<Byte>, t: int) returns (binary: array3<bool>)
    ensures fresh(binary) && SameShape(image, binary)
    ensures forall p | InArray(binary, p) :: At(binary, p) <==> At(image, p) > t
  {
    binary := new bool[image.Length0, image.Length1, image.Length2]((x, y, z)
      requires 0 <= x < image.Length0 && 0 <= y < image.Length1 && 0 <= z < image.Length2 reads image =>
        image[x, y, z] > t);
  }

  /** Sizes never increase along `cs`. */
  predicate SortedBySize(cs: seq<Component>)
  {
    forall i, j | 0 <= i < j < |cs| :: |cs[i]| >= |cs[j]|
  }

  /** Inserts `c` in front of the first component smaller than it. */
  function InsertBySize(c: Component, cs: seq<Component>): (r: seq<Component>)
    requires SortedBySize(cs)
    ensures SortedBySize(r)
    ensures multiset(r) == multiset(cs) + multiset{c}
    ensures forall x | x in r :: x == c || x in cs
  {
    if |cs| == 0 || |c| >= |cs[0]| then [c] + cs
    else
      assert cs == [cs[0]] + cs[1..];
      var rest := InsertBySize(c, cs[1..]);
      SortedCons(cs[0], rest);
      [cs[0]] + rest
  }

  /** A component no smaller than every element of a sorted list may go in front of it. */
  lemma SortedCons(c: Component, cs: seq<Component>)
    requires SortedBySize(cs) && forall x | x in cs :: |x| <= |c|
    ensures SortedBySize([c] + cs)
  {
    forall i, j | 0 <= i < j < |cs| + 1
      ensures |([c] + cs)[i]| >= |([c] + cs)[j]|
    {
      assert ([c] + cs)[j] == cs[j - 1];
      if i > 0 {
        assert ([c] + cs)[i] == cs[i - 1];
      }
    }
  }

  /**
   * `std::sort` with the comparator `s1.size() > s2.size()`: a permutation of
   * the components with sizes in decreasing order. The order among components
   * of equal size is not fixed by the comparator; this one is an insertion sort.
   */
  function SortBySize(cs: seq<Component>): (r: seq<Component>)
    ensures SortedBySize(r)
    ensures multiset(r) == multiset(cs)
  {
    if |cs| == 0 then []
    else
      assert cs == [cs[0]] + cs[1..];
      InsertBySize(cs[0], SortBySize(cs[1..]))
  }

  /** `minimum_size` (an `int`) as it is converted for the comparison with a `size_t`. */
  function AsSize(m: int): nat
  {
    m % 0x1_0000_0000_0000_0000
  }

  /** The surfels of `cs`, component after component (`all_surfels`). */
  function Flatten(cs: seq<Component>): seq<Surfel>
  {
    if |cs| == 0 then [] else Flatten(cs[..|cs| - 1]) + cs[|cs| - 1]
  }

  /** One label per surfel of `cs`: the index of its component (`V`). */
  function LabelsOf(cs: seq<Component>): seq<nat>
  {
    if |cs| == 0 then [] else LabelsOf(cs[..|cs| - 1]) + seq(|cs[|cs| - 1]|, _ => |cs| - 1)
  }

  /**
   * The labels match the surfels one to one: there is one per surfel, they
   * never decrease, each is the index of a component, and the surfel at each
   * position belongs to the component its label names.
   */
  lemma {:induction false} LabelsMatchSurfels(cs: seq<Component>)
    ensures |LabelsOf(cs)| == |Flatten(cs)|
    ensures forall i | 0 <= i < |LabelsOf(cs)| :: LabelsOf(cs)[i] < |cs| && Flatten(cs)[i] in cs[LabelsOf(cs)[i]]
    ensures forall i, j | 0 <= i <= j < |LabelsOf(cs)| :: LabelsOf(cs)[i] <= LabelsOf(cs)[j]
  {
    if |cs| > 0 {
      var n := |cs| - 1;
      var prefix := cs[..n];
      LabelsMatchSurfels(prefix);
      var labels, surfels := LabelsOf(cs), Flatten(cs);
      var m := |LabelsOf(prefix)|;
      assert labels == LabelsOf(prefix) + seq(|cs[n]|, _ => n);
      assert surfels == Flatten(prefix) + cs[n];
      forall i | 0 <= i < |labels|
        ensures labels[i] < |cs| && surfels[i] in cs[labels[i]]
      {
        if i < m {
          assert labels[i] == LabelsOf(prefix)[i] && surfels[i] == Flatten(prefix)[i];
          assert cs[labels[i]] == prefix[labels[i]];
        } else {
          assert labels[i] == n && surfels[i] == cs[n][i - m];
        }
      }
      forall i, j | 0 <= i <= j < |labels|
        ensures labels[i] <= labels[j]
      {
        if j >= m {
          assert labels[j] == n;
        }
      }
    }
  }

  /**
   * The filtering loop: walk the components in order, stop at the first one
   * smaller than `minimumSize`, and append every surfel of each component
   * passed with its rank `n` as label. The kept components are `sorted[..n]`
   * (`vec_surfs.resize(n)`).
   */
  method FilterComponents(sorted: seq<Component>, minimumSize: int)
    returns (n: nat, allSurfels: seq<Surfel>, labels: seq<nat>)
    ensures n <= |sorted|
    ensures forall k | 0 <= k < n :: |sorted[k]| >= AsSize(minimumSize)
    ensures n < |sorted| ==> |sorted[n]| < AsSize(minimumSize)
    ensures allSurfels == Flatten(sorted[..n])
    ensures labels == LabelsOf(sorted[..n])
  {
    allSurfels, labels := [], [];
    n := 0;
    while n < |sorted|
      invariant n <= |sorted|
      invariant forall k | 0 <= k < n :: |sorted[k]| >= AsSize(minimumSize)
      invariant allSurfels == Flatten(sorted[..n]) && labels == LabelsOf(sorted[..n])
    {
      if |sorted[n]| < AsSize(minimumSize) {
        break;
      }
      var surfels := sorted[n];
      for j := 0 to |surfels|
        invariant allSurfels == Flatten(sorted[..n]) + surfels[..j]
        invariant labels == LabelsOf(sorted[..n]) + seq(j, _ => n)
      {
        allSurfels := allSurfels + [surfels[j]];
        labels := labels + [n];
      }
      assert sorted[..n + 1][..n] == sorted[..n];
      assert surfels[..|surfels|] == surfels;
      n := n + 1;
    }
  }

  /**
   * On sorted components the stopping rule keeps exactly the components that
   * are large enough: component `k` is kept if and only if its size reaches
   * the minimum.
   */
  lemma KeptIffLargeEnough(sorted: seq<Component>, minimumSize: int, n: nat)
    requires SortedBySize(sorted) && n <= |sorted|
    requires forall k | 0 <= k < n :: |sorted[k]| >= AsSize(minimumSize)
    requires n < |sorted| ==> |sorted[n]| < AsSize(minimumSize)
    ensures forall k | 0 <= k < |sorted| :: k < n <==> |sorted[k]| >= AsSize(minimumSize)
  {
    forall k | n <= k < |sorted|
      ensures |sorted[k]| < AsSize(minimumSize)
    {
      assert |sorted[n]| >= |sorted[k]|;
    }
  }

  /** A prefix of a sorted list is sorted and is a sub-multiset of the list. */
  lemma SortedPrefix(sorted: seq<Component>, n: nat)
    requires SortedBySize(sorted) && n <= |sorted|
    ensures SortedBySize(sorted[..n])
    ensures multiset(sorted[..n]) <= multiset(sorted)
  {
    assert sorted == sorted[..n] + sorted[n..];
  }

  /**
   * The components kept from the unsorted list are exactly those whose size
   * reaches the minimum; they are a sorted sub-multiset of the components;
   * and when some component is large enough, one is kept and the first kept
   * component is a largest one.
   */
  lemma KeptAreTheLargeComponents(components: seq<Component>, minimumSize: int, n: nat)
    requires n <= |SortBySize(components)|
    requires forall k | 0 <= k < n :: |SortBySize(components)[k]| >= AsSize(minimumSize)
    requires n < |SortBySize(components)| ==> |SortBySize(components)[n]| < AsSize(minimumSize)
    ensures forall c | c in components :: c in SortBySize(components)[..n] <==> |c| >= AsSize(minimumSize)
    ensures SortedBySize(SortBySize(components)[..n])
    ensures multiset(SortBySize(components)[..n]) <= multiset(components)
    ensures (exists c | c in components :: |c| >= AsSize(minimumSize)) ==> n > 0
    ensures n > 0 ==> forall c | c in components :: |c| <= |SortBySize(components)[0]|
  {
    var sorted := SortBySize(components);
    KeptIffLargeEnough(sorted, minimumSize, n);
    SortedPrefix(sorted, n);
    forall c | c in components
      ensures c in sorted[..n] <==> |c| >= AsSize(minimumSize)
      ensures n > 0 ==> |c| <= |sorted[0]|
    {
      assert c in multiset(sorted);
      var k :| 0 <= k < |sorted| && sorted[k] == c;
      if c in sorted[..n] {
        var i :| 0 <= i < n && sorted[..n][i] == c;
        assert sorted[i] == c;
      }
      if n > 0 && k > 0 {
        assert |sorted[0]| >= |sorted[k]|;
      }
    }
  }

  /**
   * The component part of `extractDigitalSurface`: sort, filter and label the
   * components and take the first kept one as the main surface. At least one
   * component must be large enough: otherwise `extractDigitalSurface` reads the first
   * element of an empty vector.
   */
  method SelectComponents(components: seq<Component>, minimumSize: int)
    returns (kept: seq<Component>, allSurfels: seq<Surfel>, labels: seq<nat>, mainSurface: Component)
    requires exists c | c in components :: |c| >= AsSize(minimumSize)
    ensures multiset(kept) <= multiset(components) && SortedBySize(kept)
    ensures forall c | c in components :: c in kept <==> |c| >= AsSize(minimumSize)
    ensures allSurfels == Flatten(kept) && labels == LabelsOf(kept)
    ensures |kept| > 0 && mainSurface == kept[0]
    ensures forall c | c in components :: |c| <= |mainSurface|
  {
    var sorted := SortBySize(components);
    var n;
    n, allSurfels, labels := FilterComponents(sorted, minimumSize);
    KeptAreTheLargeComponents(components, minimumSize, n);
    kept := sorted[..n];
    mainSurface := kept[0];
  }

  /**
   * `extractDigitalSurface` without its rendering: threshold the image, then
   * select the components. The components are given, as computed from the
   * binary image by the digital-surface library.
   */
  method ExtractDigitalSurface(image: array3<Byte>, t: int, components: seq<Component>, minimumSize: int)
    returns (binary: array3<bool>, kept: seq<Component>, allSurfels: seq<Surfel>, labels: seq<nat>,
             mainSurface: Component)
    requires exists c | c in components :: |c| >= AsSize(minimumSize)
    ensures fresh(binary) && SameShape(image, binary)
    ensures forall p | InArray(binary, p) :: At(binary, p) <==> At(image, p) > t
    ensures multiset(kept) <= multiset(components) && SortedBySize(kept)
    ensures forall c | c in components :: c in kept <==> |c| >= AsSize(minimumSize)
    ensures allSurfels == Flatten(kept) && labels == LabelsOf(kept)
    ensures |kept| > 0 && mainSurface == kept[0]
    ensures forall c | c in components :: |c| <= |mainSurface|
  {
    binary := Threshold(image, t);
    kept, allSurfels, labels, mainSurface := SelectComponents(components, minimumSize);
  }
}
