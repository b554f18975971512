/**
 * The homotopic thinning engine: a 26/6 digital object built from a binary
 * voxel grid, the peeling round `oneStep` that removes simple points one at a
 * time, the run-until-finished loop of the viewer, and the dispatch and final
 * projection of the critical-kernel thinning.
 *
 * The simple-point lookup table is not visible here, so simplicity is a
 * deterministic oracle `isSimple(S, p)`: "p is simple for the point set S".
 * The global `binary_image` of the program is the array passed to each method.
 */
module HomotopicThinning {
  import opened Lattice

  /** A simplicity oracle, as loaded from the 26/6 simple-point table. */
  type SimplicityTable = (set<Point>, Point) -> bool

  /** `Z3i::Object26_6`: a point set plus the table deciding simplicity. */
  class DigitalObject {
    var pointSet: set<Point>
    const isSimple: SimplicityTable

    constructor (voxelSet: set<Point>, table: SimplicityTable)
      ensures pointSet == voxelSet
      ensures forall s, p :: isSimple(s, p) == table(s, p)
    {
      pointSet := voxelSet;
      isSimple := table;
    }
  }

  /** Every point of `s` is a voxel of `binaryImage`. */
  ghost predicate AllInArray(s: set<Point>, binaryImage: array3<bool>)
  {
    forall p | p in s :: InArray(binaryImage, p)
  }

  /** The grid foreground is exactly the object's point set. */
  ghost predicate Consistent(obj: DigitalObject, binaryImage: array3<bool>)
    reads obj, binaryImage
  {
    && AllInArray(obj.pointSet, binaryImage)
    && forall x, y, z | 0 <= x < binaryImage.Length0 && 0 <= y < binaryImage.Length1 && 0 <= z < binaryImage.Length2 ::
         binaryImage[x, y, z] <==> Point(x, y, z) in obj.pointSet
  }

  /** The members of `s` that are simple for `s`. */
  ghost function SimplePoints(isSimple: SimplicityTable, s: set<Point>): set<Point>
  {
    set p | p in s && isSimple(s, p)
  }

  /**
   * The point set after popping the queue `q` in order, removing each popped
   * point exactly when it is simple for the set as it is at that moment.
   */
  ghost function Peel(isSimple: SimplicityTable, s: set<Point>, q: seq<Point>): set<Point>
    decreases |q|
  {
    if q == [] then s
    else
      var t := Peel(isSimple, s, q[..|q| - 1]);
      var p := q[|q| - 1];
      if isSimple(t, p) then t - {p} else t
  }

  /** The number of successful removals while popping `q` (`nb_simple`). */
  ghost function PeelCount(isSimple: SimplicityTable, s: set<Point>, q: seq<Point>): nat
    decreases |q|
  {
    if q == [] then 0
    else
      var t := Peel(isSimple, s, q[..|q| - 1]);
      PeelCount(isSimple, s, q[..|q| - 1]) + if isSimple(t, q[|q| - 1]) then 1 else 0
  }

  /** Peeling only shrinks the set, and only queued points can disappear. */
  lemma {:induction false} PeelShrinks(isSimple: SimplicityTable, s: set<Point>, q: seq<Point>)
    ensures Peel(isSimple, s, q) <= s
    ensures forall p | p in s && p !in Peel(isSimple, s, q) :: p in q
    decreases |q|
  {
    if q != [] {
      PeelShrinks(isSimple, s, q[..|q| - 1]);
    }
  }

  /**
   * When the queue holds distinct members of `s`, each point is still a member
   * when it is popped: the prefix before it removed only other points.
   */
  lemma {:induction false} PoppedIsMember(isSimple: SimplicityTable, s: set<Point>, q: seq<Point>, k: nat)
    requires Distinct(q)
    requires forall m | 0 <= m < |q| :: q[m] in s
    requires k < |q|
    ensures q[k] in Peel(isSimple, s, q[..k])
  {
    PeelShrinks(isSimple, s, q[..k]);
  }

  /**
   * `nb_simple` is the number of points the round removed:
   * `|old S| - |new S| == nb_simple`.
   */
  lemma {:induction false} PeelCountIsShrinkage(isSimple: SimplicityTable, s: set<Point>, q: seq<Point>)
    requires Distinct(q)
    requires forall m | 0 <= m < |q| :: q[m] in s
    ensures |s| - |Peel(isSimple, s, q)| == PeelCount(isSimple, s, q)
    decreases |q|
  {
    if q != [] {
      var n := |q| - 1;
      var prefix := q[..n];
      assert Distinct(prefix);
      PeelCountIsShrinkage(isSimple, s, prefix);
      PoppedIsMember(isSimple, s, q, n);
      PeelShrinks(isSimple, s, prefix);
    }
  }

  /** Counting removals over a longer queue never gives fewer. */
  lemma {:induction false} PeelCountGrows(isSimple: SimplicityTable, s: set<Point>, q: seq<Point>, k: nat)
    requires k <= |q|
    ensures PeelCount(isSimple, s, q[..k]) <= PeelCount(isSimple, s, q)
    decreases |q|
  {
    if k < |q| {
      var n := |q| - 1;
      assert q[..n][..k] == q[..k];
      PeelCountGrows(isSimple, s, q[..n], k);
    } else {
      assert q[..k] == q;
    }
  }

  /**
   * A round whose queue holds exactly the simple members reports "finished"
   * (no removal) if and only if no member is simple, and then it leaves the
   * set unchanged, so a further round is finished too.
   */
  lemma {:induction false} FinishedIffNoSimplePoint(isSimple: SimplicityTable, s: set<Point>, q: seq<Point>)
    requires forall p :: p in q <==> p in SimplePoints(isSimple, s)
    ensures PeelCount(isSimple, s, q) == 0 <==> SimplePoints(isSimple, s) == {}
    ensures PeelCount(isSimple, s, q) == 0 <==> q == []
    ensures PeelCount(isSimple, s, q) == 0 ==> Peel(isSimple, s, q) == s
  {
    if q != [] {
      assert q[0] in SimplePoints(isSimple, s);
      assert q[..1][..0] == [];
      PeelCountGrows(isSimple, s, q, 1);
    } else {
      assert forall p | p in SimplePoints(isSimple, s) :: p in q;
    }
    NoCountNoChange(isSimple, s, q);
  }

  /** A round that counted no removal left the set as it was. */
  lemma {:induction false} NoCountNoChange(isSimple: SimplicityTable, s: set<Point>, q: seq<Point>)
    ensures PeelCount(isSimple, s, q) == 0 ==> Peel(isSimple, s, q) == s
    decreases |q|
  {
    if q != [] {
      NoCountNoChange(isSimple, s, q[..|q| - 1]);
    }
  }

  /**
   * `voxel_set` of `makeObjectFromImage`: the points of the domain of `image`
   * at which `binaryImage` is true.
   */
  method CollectForeground(image: array3<bool>, binaryImage: array3<bool>) returns (voxelSet: set<Point>)
    requires image.Length0 <= binaryImage.Length0 && image.Length1 <= binaryImage.Length1
    requires image.Length2 <= binaryImage.Length2
    ensures forall p :: p in voxelSet <==> InArray(image, p) && binaryImage[p.x, p.y, p.z]
  {
    voxelSet := {};
    for z := 0 to image.Length2
      invariant forall p :: p in voxelSet <==> InArray(image, p) && Before(p, 0, 0, z) && binaryImage[p.x, p.y, p.z]
    {
      for y := 0 to image.Length1
        invariant forall p :: p in voxelSet <==> InArray(image, p) && Before(p, 0, y, z) && binaryImage[p.x, p.y, p.z]
      {
        for x := 0 to image.Length0
          invariant forall p :: p in voxelSet <==> InArray(image, p) && Before(p, x, y, z) && binaryImage[p.x, p.y, p.z]
        {
          if binaryImage[x, y, z] {
            voxelSet := voxelSet + {Point(x, y, z)};
          }
        }
      }
    }
  }

  /**
   * `makeObjectFromImage`: the domain comes from `image`, membership from the
   * global `binaryImage`.
   */
  method MakeObjectFromImage(image: array3<bool>, binaryImage: array3<bool>, table: SimplicityTable)
    returns (obj: DigitalObject)
    requires image.Length0 <= binaryImage.Length0 && image.Length1 <= binaryImage.Length1
    requires image.Length2 <= binaryImage.Length2
    ensures fresh(obj)
    ensures forall p :: p in obj.pointSet <==> InArray(image, p) && binaryImage[p.x, p.y, p.z]
    ensures forall s, p :: obj.isSimple(s, p) == table(s, p)
    ensures image == binaryImage ==> Consistent(obj, binaryImage)
  {
    var voxelSet := CollectForeground(image, binaryImage);
    obj := new DigitalObject(voxelSet, table);
  }

  /**
   * The first loop of `oneStep`: scan the members, queuing each one simple at
   * the start of the round.
   */
  method QueueSimplePoints(obj: DigitalObject) returns (q: seq<Point>)
    ensures RoundQueue(obj.isSimple, obj.pointSet, q)
  {
    var s := obj.pointSet;
    q := [];
    var rest := s;
    while rest != {}
      invariant rest <= s
      invariant Distinct(q)
      invariant forall p :: p in q <==> p in s - rest && obj.isSimple(s, p)
      decreases rest
    {
      var p :| p in rest;
      if obj.isSimple(s, p) {
        q := q + [p];
      }
      rest := rest - {p};
    }
  }

  /**
   * `oneStep`: queue every member simple at the start of the round, then pop
   * each one and erase it (from the set and from the grid) if it is still
   * simple for the current set. Returns "finished" when nothing was removed.
   * The queue order follows the traversal of the set, which is left open;
   * `queue` is that order.
   */
  method OneStep(obj: DigitalObject, binaryImage: array3<bool>)
    returns (finished: bool, ghost queue: seq<Point>, ghost count: nat)
    requires AllInArray(obj.pointSet, binaryImage)
    modifies obj, binaryImage
    ensures RoundQueue(obj.isSimple, old(obj.pointSet), queue)
    ensures obj.pointSet == Peel(obj.isSimple, old(obj.pointSet), queue)
    ensures count == PeelCount(obj.isSimple, old(obj.pointSet), queue) == |old(obj.pointSet)| - |obj.pointSet|
    ensures finished <==> count == 0
    ensures finished <==> queue == []
    ensures obj.pointSet <= old(obj.pointSet)
    ensures finished <==> SimplePoints(obj.isSimple, old(obj.pointSet)) == {}
    ensures finished <==> obj.pointSet == old(obj.pointSet)
    ensures forall x, y, z | 0 <= x < binaryImage.Length0 && 0 <= y < binaryImage.Length1 && 0 <= z < binaryImage.Length2 ::
              binaryImage[x, y, z] == (old(binaryImage[x, y, z]) && Point(x, y, z) !in old(obj.pointSet) - obj.pointSet)
    ensures old(Consistent(obj, binaryImage)) ==> Consistent(obj, binaryImage)
  {
    var s := obj.pointSet;
    var q := QueueSimplePoints(obj);
    queue := q;
    assert forall m | 0 <= m < |q| :: q[m] in q;
    var nbSimple := DrainQueue(obj, binaryImage, q);
    finished := nbSimple == 0;
    count := nbSimple;
    PeelShrinks(obj.isSimple, s, queue);
    PeelCountIsShrinkage(obj.isSimple, s, queue);
    FinishedIffNoSimplePoint(obj.isSimple, s, queue);
  }

  /**
   * The second loop of `oneStep`: pop each queued point and erase it, from the
   * set and from the grid, when it is simple for the current set; count the
   * erasures (`nb_simple`).
   */
  method DrainQueue(obj: DigitalObject, binaryImage: array3<bool>, queue: seq<Point>) returns (nbSimple: nat)
    requires AllInArray(obj.pointSet, binaryImage)
    requires Distinct(queue) && forall m | 0 <= m < |queue| :: queue[m] in obj.pointSet
    modifies obj, binaryImage
    ensures obj.pointSet == Peel(obj.isSimple, old(obj.pointSet), queue)
    ensures nbSimple == PeelCount(obj.isSimple, old(obj.pointSet), queue)
    ensures forall x, y, z | 0 <= x < binaryImage.Length0 && 0 <= y < binaryImage.Length1 && 0 <= z < binaryImage.Length2 ::
              binaryImage[x, y, z] == (old(binaryImage[x, y, z]) && Point(x, y, z) !in old(obj.pointSet) - obj.pointSet)
  {
    var s := obj.pointSet;
    var q := queue;
    nbSimple := 0;
    ghost var k := 0;
    while q != []
      invariant 0 <= k <= |queue| && q == queue[k..]
      invariant obj.pointSet == Peel(obj.isSimple, s, queue[..k])
      invariant obj.pointSet <= s
      invariant forall m | k <= m < |queue| :: queue[m] in obj.pointSet
      invariant nbSimple == PeelCount(obj.isSimple, s, queue[..k])
      invariant forall x, y, z | 0 <= x < binaryImage.Length0 && 0 <= y < binaryImage.Length1 && 0 <= z < binaryImage.Length2 ::
                  binaryImage[x, y, z] == (old(binaryImage[x, y, z]) && Point(x, y, z) !in s - obj.pointSet)
      decreases |q|
    {
      var p := q[0];
      q := q[1..];
      assert p == queue[k];
      assert queue[..k + 1][..k] == queue[..k];
      if obj.isSimple(obj.pointSet, p) {
        obj.pointSet := obj.pointSet - {p};
        binaryImage[p.x, p.y, p.z] := false;
        nbSimple := nbSimple + 1;
      }
      k := k + 1;
    }
    assert queue[..k] == queue;
  }

  /** `q` is a queue a round may build for `s`: each simple member of `s` once. */
  ghost predicate RoundQueue(isSimple: SimplicityTable, s: set<Point>, q: seq<Point>)
  {
    Distinct(q) && forall p :: p in q <==> p in SimplePoints(isSimple, s)
  }

  /** The point set after the rounds whose queues are `rounds`, in order. */
  ghost function AfterRounds(isSimple: SimplicityTable, s: set<Point>, rounds: seq<seq<Point>>): set<Point>
    decreases |rounds|
  {
    if rounds == [] then s
    else Peel(isSimple, AfterRounds(isSimple, s, rounds[..|rounds| - 1]), rounds[|rounds| - 1])
  }

  /** Each round's queue is a valid queue for the set the previous rounds left. */
  ghost predicate ValidRounds(isSimple: SimplicityTable, s: set<Point>, rounds: seq<seq<Point>>)
  {
    forall r | 0 <= r < |rounds| :: RoundQueue(isSimple, AfterRounds(isSimple, s, rounds[..r]), rounds[r])
  }

  /** Appending one more valid round keeps the history valid and peels once more. */
  lemma {:induction false} ValidRoundsExtend(isSimple: SimplicityTable, s: set<Point>, rounds: seq<seq<Point>>,
                                             q: seq<Point>)
    requires ValidRounds(isSimple, s, rounds)
    requires RoundQueue(isSimple, AfterRounds(isSimple, s, rounds), q)
    ensures ValidRounds(isSimple, s, rounds + [q])
    ensures AfterRounds(isSimple, s, rounds + [q]) == Peel(isSimple, AfterRounds(isSimple, s, rounds), q)
  {
    var longer := rounds + [q];
    assert longer[..|rounds|] == rounds;
    forall r | 0 <= r < |longer|
      ensures RoundQueue(isSimple, AfterRounds(isSimple, s, longer[..r]), longer[r])
    {
      if r < |rounds| {
        assert longer[..r] == rounds[..r];
      }
    }
  }

  /**
   * The "Run", "Run 10" and "Run 100" buttons: `count` rounds of `oneStep`,
   * each on the set the previous one left. When the set had a simple point,
   * the first round already removed one.
   */
  method RunSteps(obj: DigitalObject, binaryImage: array3<bool>, count: nat) returns (ghost rounds: seq<seq<Point>>)
    requires AllInArray(obj.pointSet, binaryImage)
    modifies obj, binaryImage
    ensures |rounds| == count && ValidRounds(obj.isSimple, old(obj.pointSet), rounds)
    ensures obj.pointSet == AfterRounds(obj.isSimple, old(obj.pointSet), rounds)
    ensures obj.pointSet <= old(obj.pointSet)
    ensures count > 0 && SimplePoints(obj.isSimple, old(obj.pointSet)) != {} ==> obj.pointSet < old(obj.pointSet)
    ensures forall x, y, z | 0 <= x < binaryImage.Length0 && 0 <= y < binaryImage.Length1 && 0 <= z < binaryImage.Length2 ::
              binaryImage[x, y, z] == (old(binaryImage[x, y, z]) && Point(x, y, z) !in old(obj.pointSet) - obj.pointSet)
    ensures old(Consistent(obj, binaryImage)) ==> Consistent(obj, binaryImage)
  {
    rounds := [];
    for i := 0 to count
      invariant |rounds| == i && ValidRounds(obj.isSimple, old(obj.pointSet), rounds)
      invariant obj.pointSet == AfterRounds(obj.isSimple, old(obj.pointSet), rounds)
      invariant obj.pointSet <= old(obj.pointSet)
      invariant i > 0 && SimplePoints(obj.isSimple, old(obj.pointSet)) != {} ==> obj.pointSet < old(obj.pointSet)
      invariant AllInArray(obj.pointSet, binaryImage)
      invariant forall x, y, z | 0 <= x < binaryImage.Length0 && 0 <= y < binaryImage.Length1 && 0 <= z < binaryImage.Length2 ::
                  binaryImage[x, y, z] == (old(binaryImage[x, y, z]) && Point(x, y, z) !in old(obj.pointSet) - obj.pointSet)
      invariant old(Consistent(obj, binaryImage)) ==> Consistent(obj, binaryImage)
    {
      var _, queue, _ := OneStep(obj, binaryImage);
      ValidRoundsExtend(obj.isSimple, old(obj.pointSet), rounds, queue);
      rounds := rounds + [queue];
    }
  }

  /**
   * The "All screenshots" loop: rounds until one reports "finished". It stops
   * because every round that is not finished removes at least one point; the
   * last round found no simple point, so its queue is empty and at the end no
   * member is simple.
   */
  method RunUntilFinished(obj: DigitalObject, binaryImage: array3<bool>) returns (ghost rounds: seq<seq<Point>>)
    requires AllInArray(obj.pointSet, binaryImage)
    modifies obj, binaryImage
    ensures ValidRounds(obj.isSimple, old(obj.pointSet), rounds)
    ensures obj.pointSet == AfterRounds(obj.isSimple, old(obj.pointSet), rounds)
    ensures |rounds| > 0 && rounds[|rounds| - 1] == []
    ensures SimplePoints(obj.isSimple, obj.pointSet) == {}
    ensures obj.pointSet <= old(obj.pointSet)
    ensures forall x, y, z | 0 <= x < binaryImage.Length0 && 0 <= y < binaryImage.Length1 && 0 <= z < binaryImage.Length2 ::
              binaryImage[x, y, z] == (old(binaryImage[x, y, z]) && Point(x, y, z) !in old(obj.pointSet) - obj.pointSet)
    ensures old(Consistent(obj, binaryImage)) ==> Consistent(obj, binaryImage)
  {
    rounds := [];
    var finished := false;
    while !finished
      invariant ValidRounds(obj.isSimple, old(obj.pointSet), rounds)
      invariant obj.pointSet == AfterRounds(obj.isSimple, old(obj.pointSet), rounds)
      invariant finished ==> |rounds| > 0 && rounds[|rounds| - 1] == []
      invariant obj.pointSet <= old(obj.pointSet)
      invariant AllInArray(obj.pointSet, binaryImage)
      invariant finished ==> SimplePoints(obj.isSimple, obj.pointSet) == {}
      invariant forall x, y, z | 0 <= x < binaryImage.Length0 && 0 <= y < binaryImage.Length1 && 0 <= z < binaryImage.Length2 ::
                  binaryImage[x, y, z] == (old(binaryImage[x, y, z]) && Point(x, y, z) !in old(obj.pointSet) - obj.pointSet)
      invariant old(Consistent(obj, binaryImage)) ==> Consistent(obj, binaryImage)
      decreases if finished then 0 else |obj.pointSet| + 1
    {
      ghost var queue, removed;
      finished, queue, removed := OneStep(obj, binaryImage);
      ValidRoundsExtend(obj.isSimple, old(obj.pointSet), rounds, queue);
      rounds := rounds + [queue];
    }
  }

  /**
   * The "Reset" button: `binary_image` becomes a copy of `original_image` and
   * the object is rebuilt from it, so grid and point set agree.
   */
  method Reset(originalImage: array3<bool>, table: SimplicityTable) returns (binaryImage: array3<bool>, obj: DigitalObject)
    ensures fresh(binaryImage) && fresh(obj) && SameShape(binaryImage, originalImage)
    ensures forall x, y, z | 0 <= x < originalImage.Length0 && 0 <= y < originalImage.Length1 && 0 <= z < originalImage.Length2 ::
              binaryImage[x, y, z] == originalImage[x, y, z]
    ensures Consistent(obj, binaryImage)
    ensures forall s, p :: obj.isSimple(s, p) == table(s, p)
  {
    binaryImage := CopyImage(originalImage);
    obj := MakeObjectFromImage(binaryImage, binaryImage, table);
  }

  /** The isthmus table: `tableIsthmus` or `tableOneIsthmus`. */
  datatype IsthmusTable = FullIsthmusTable | OneIsthmusTable

  /** The DGtal thinning scheme run on the voxel complex. */
  datatype ThinningScheme =
    | AsymmetricThinning
    | PersistenceAsymmetricThinning(persistence: int)

  /** Everything `criticalKernels` hands to the thinning scheme besides the voxels. */
  datatype KernelSetup = KernelSetup(space: Box, table: IsthmusTable, scheme: ThinningScheme)

  /** The cellular space: the image domain enlarged by one voxel on every side. */
  function CellularSpace(domain: Box): Box
  {
    Box(Sub(domain.lo, Diagonal(1)), Add(domain.up, Diagonal(1)))
  }

  /** `q` lies in the 26-neighbourhood of `p`, or is `p`. */
  predicate WithinOne(p: Point, q: Point)
  {
    -1 <= p.x - q.x <= 1 && -1 <= p.y - q.y <= 1 && -1 <= p.z - q.z <= 1
  }

  function Clamp(v: int, lo: int, up: int): int
  {
    if v < lo then lo else if v > up then up else v
  }

  /**
   * The cellular space holds exactly the voxels of the domain and their 26
   * neighbours, so every voxel's neighbourhood configuration lies inside it.
   */
  lemma CellularSpaceIsOneVoxelHalo(domain: Box, q: Point)
    requires domain.lo.x <= domain.up.x && domain.lo.y <= domain.up.y && domain.lo.z <= domain.up.z
    ensures InBox(CellularSpace(domain), q) <==> exists p :: InBox(domain, p) && WithinOne(p, q)
  {
    if InBox(CellularSpace(domain), q) {
      var p := Point(Clamp(q.x, domain.lo.x, domain.up.x), Clamp(q.y, domain.lo.y, domain.up.y),
                     Clamp(q.z, domain.lo.z, domain.up.z));
      assert InBox(domain, p) && WithinOne(p, q);
    }
  }

  /**
   * The choices `criticalKernels` makes from its arguments: the enlarged
   * cellular space, the isthmus table and the thinning scheme.
   */
  function CriticalKernelSetup(domain: Box, oneIsthmus: bool, persistence: int): (r: KernelSetup)
    ensures r.space == CellularSpace(domain)
    ensures r.table == OneIsthmusTable <==> oneIsthmus
    ensures r.scheme == AsymmetricThinning <==> persistence == 0
    ensures r.scheme.PersistenceAsymmetricThinning? ==> r.scheme.persistence == persistence
  {
    KernelSetup(CellularSpace(domain),
                if !oneIsthmus then FullIsthmusTable else OneIsthmusTable,
                if persistence == 0 then AsymmetricThinning else PersistenceAsymmetricThinning(persistence))
  }

  /**
   * The thinning scheme itself (voxel complex construction, isthmus test,
   * distance-map selection, DGtal's schemes) is foreign code: `thinning`
   * stands for it and gives the voxels of the thinned complex.
   */
  type Thinning = (KernelSetup, set<Point>) -> set<Point>

  /**
   * `criticalKernels`: thin the object's point set, then clear in the grid
   * every point of the set that the thinned set dropped. Only the grid
   * changes; the object's point set does not.
   */
  method CriticalKernels(obj: DigitalObject, binaryImage: array3<bool>, oneIsthmus: bool, persistence: int,
                         thinning: Thinning)
    requires AllInArray(obj.pointSet, binaryImage)
    modifies binaryImage
    ensures obj.pointSet == old(obj.pointSet)
    ensures var thinSet := thinning(CriticalKernelSetup(ArrayDomain(binaryImage), oneIsthmus, persistence), obj.pointSet);
      forall x, y, z | 0 <= x < binaryImage.Length0 && 0 <= y < binaryImage.Length1 && 0 <= z < binaryImage.Length2 ::
        binaryImage[x, y, z] == (old(binaryImage[x, y, z]) && !(Point(x, y, z) in obj.pointSet && Point(x, y, z) !in thinSet))
    ensures var thinSet := thinning(CriticalKernelSetup(ArrayDomain(binaryImage), oneIsthmus, persistence), obj.pointSet);
      old(Consistent(obj, binaryImage)) ==>
        forall x, y, z | 0 <= x < binaryImage.Length0 && 0 <= y < binaryImage.Length1 && 0 <= z < binaryImage.Length2 ::
          binaryImage[x, y, z] <==> Point(x, y, z) in obj.pointSet && Point(x, y, z) in thinSet
  {
    var imageSet := obj.pointSet;
    var setup := CriticalKernelSetup(ArrayDomain(binaryImage), oneIsthmus, persistence);
    var thinSet := thinning(setup, imageSet);
    // Project the thinned set back onto the grid.
    var rest := imageSet;
    while rest != {}
      invariant rest <= imageSet
      invariant forall x, y, z | 0 <= x < binaryImage.Length0 && 0 <= y < binaryImage.Length1 && 0 <= z < binaryImage.Length2 ::
                  binaryImage[x, y, z] == (old(binaryImage[x, y, z]) && !(Point(x, y, z) in imageSet - rest && Point(x, y, z) !in thinSet))
      decreases rest
    {
      var p :| p in rest;
      if p !in thinSet {
        binaryImage[p.x, p.y, p.z] := false;
      }
      rest := rest - {p};
    }
  }
}
