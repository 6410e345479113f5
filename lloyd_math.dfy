/**
 * The mathematics of one run of Lloyd's algorithm (k-means), on values.
 *
 * Points and centroids are vectors of reals. A round assigns every point to
 * its nearest centroid (lowest index on ties), replaces every centroid by the
 * mean of its members, and counts the coordinates that changed. A run repeats
 * rounds until one changes nothing or the round budget is spent.
 */
module LloydMath {

  type Vector = seq<real>

  function Sq(x: real): real { x * x }

  /** Squared Euclidean distance, accumulated from the first coordinate to the last. */
  function SqDist(x: Vector, y: Vector): real
    requires |x| == |y|
    decreases |x|
  {
    if |x| == 0 then 0.0
    else SqDist(x[..|x| - 1], y[..|y| - 1]) + Sq(x[|x| - 1] - y[|y| - 1])
  }

  lemma SqPositive(t: real)
    ensures Sq(t) >= 0.0
    ensures t != 0.0 ==> Sq(t) > 0.0
  {
    if t > 0.0 {
      calc { Sq(t); == t * t; > 0.0; }
    } else if t < 0.0 {
      calc { Sq(t); == (-t) * (-t); > 0.0; }
    }
  }

  lemma {:induction false} SqDistNonNegative(x: Vector, y: Vector)
    requires |x| == |y|
    ensures SqDist(x, y) >= 0.0
  {
    if |x| > 0 {
      var n := |x| - 1;
      SqDistNonNegative(x[..n], y[..n]);
      SqPositive(x[n] - y[n]);
    }
  }

  /** The distance is zero exactly when the two vectors agree on every coordinate. */
  lemma {:induction false} SqDistZeroIff(x: Vector, y: Vector)
    requires |x| == |y|
    ensures SqDist(x, y) == 0.0 <==> x == y
  {
    if |x| > 0 {
      var n := |x| - 1;
      SqDistZeroIff(x[..n], y[..n]);
      SqDistNonNegative(x[..n], y[..n]);
      SqPositive(x[n] - y[n]);
      assert x == x[..n] + [x[n]];
      assert y == y[..n] + [y[n]];
    }
  }

  /** Every vector of vs has exactly d coordinates. */
  predicate SameDim(vs: seq<Vector>, d: nat)
  {
    forall c :: 0 <= c < |vs| ==> |vs[c]| == d
  }

  /**
   * Index of the centroid among cents[..j] that is nearest to p, found by
   * scanning upward from index 0 and moving only on a strictly smaller
   * distance.
   */
  function NearestAmong(p: Vector, cents: seq<Vector>, j: nat): (r: nat)
    requires 1 <= j <= |cents| && SameDim(cents, |p|)
    ensures r < j
    decreases j
  {
    if j == 1 then 0
    else
      var best := NearestAmong(p, cents, j - 1);
      if SqDist(p, cents[j - 1]) < SqDist(p, cents[best]) then j - 1 else best
  }

  /** The cluster a point joins. */
  function Nearest(p: Vector, cents: seq<Vector>): (r: nat)
    requires |cents| >= 1 && SameDim(cents, |p|)
    ensures r < |cents|
  {
    NearestAmong(p, cents, |cents|)
  }

  /** The scan over cents[..j] ends on the first index whose distance is minimal among cents[..j]. */
  lemma {:induction false} NearestAmongIsFirstMinimum(p: Vector, cents: seq<Vector>, j: nat)
    requires 1 <= j <= |cents| && SameDim(cents, |p|)
    ensures var r := NearestAmong(p, cents, j);
      && (forall c :: 0 <= c < j ==> SqDist(p, cents[r]) <= SqDist(p, cents[c]))
      && (forall c :: 0 <= c < r ==> SqDist(p, cents[r]) < SqDist(p, cents[c]))
  {
    if j > 1 {
      NearestAmongIsFirstMinimum(p, cents, j - 1);
    }
  }

  /**
   * The cluster a point joins is at minimum distance from it, and every
   * cluster with a lower index is strictly farther: ties go to the lowest index.
   */
  lemma NearestIsFirstMinimum(p: Vector, cents: seq<Vector>)
    requires |cents| >= 1 && SameDim(cents, |p|)
    ensures var r := Nearest(p, cents);
      && (forall c :: 0 <= c < |cents| ==> SqDist(p, cents[r]) <= SqDist(p, cents[c]))
      && (forall c :: 0 <= c < r ==> SqDist(p, cents[r]) < SqDist(p, cents[c]))
  {
    NearestAmongIsFirstMinimum(p, cents, |cents|);
  }

  /** At least one centroid, and points and centroids share one dimension. */
  predicate Shaped(pts: seq<Vector>, cents: seq<Vector>)
  {
    |cents| >= 1 && SameDim(cents, |cents[0]|) && SameDim(pts, |cents[0]|)
  }

  /** The cluster tag of every point, in point order. */
  function Assignment(pts: seq<Vector>, cents: seq<Vector>): (tags: seq<nat>)
    requires Shaped(pts, cents)
    ensures |tags| == |pts|
    decreases |pts|
  {
    if |pts| == 0 then []
    else Assignment(pts[..|pts| - 1], cents) + [Nearest(pts[|pts| - 1], cents)]
  }

  /** Every point is tagged with its nearest cluster, and every tag names a cluster. */
  lemma {:induction false} AssignmentAt(pts: seq<Vector>, cents: seq<Vector>, p: nat)
    requires Shaped(pts, cents) && p < |pts|
    ensures Assignment(pts, cents)[p] == Nearest(pts[p], cents) < |cents|
    decreases |pts|
  {
    var n := |pts| - 1;
    if p < n {
      AssignmentAt(pts[..n], cents, p);
    }
  }

  /** The assignment is the only tag list that gives every point its nearest centroid. */
  lemma AssignmentOfNearest(pts: seq<Vector>, cents: seq<Vector>, tags: seq<nat>)
    requires Shaped(pts, cents) && |tags| == |pts|
    requires forall p :: 0 <= p < |pts| ==> tags[p] == Nearest(pts[p], cents)
    ensures tags == Assignment(pts, cents)
  {
    forall p | 0 <= p < |pts|
      ensures tags[p] == Assignment(pts, cents)[p]
    {
      AssignmentAt(pts, cents, p);
    }
  }

  /** Number of entries of tags equal to c. */
  function Count(tags: seq<nat>, c: nat): nat
    decreases |tags|
  {
    if |tags| == 0 then 0
    else Count(tags[..|tags| - 1], c) + (if tags[|tags| - 1] == c then 1 else 0)
  }

  /** Coordinate i summed over the points tagged c. */
  function MemberSum(pts: seq<Vector>, tags: seq<nat>, c: nat, i: nat): real
    requires |pts| == |tags|
    requires forall p :: 0 <= p < |pts| ==> i < |pts[p]|
    decreases |tags|
  {
    if |tags| == 0 then 0.0
    else
      var n := |tags| - 1;
      MemberSum(pts[..n], tags[..n], c, i) + (if tags[n] == c then pts[n][i] else 0.0)
  }

  /** A point appended to the members adds its coordinate to its own cluster's sum only. */
  lemma MemberSumSnoc(pts: seq<Vector>, tags: seq<nat>, j: nat, t: nat, c: nat, i: nat)
    requires |tags| == j < |pts|
    requires forall p :: 0 <= p < |pts| ==> i < |pts[p]|
    ensures MemberSum(pts[..j + 1], tags + [t], c, i)
      == MemberSum(pts[..j], tags, c, i) + (if t == c then pts[j][i] else 0.0)
  {
    assert pts[..j + 1][..j] == pts[..j];
    assert (tags + [t])[..j] == tags;
  }

  /** Sum of Count(tags, c) over the cluster indices c < k. */
  function CountUpTo(tags: seq<nat>, k: nat): nat
  {
    if k == 0 then 0 else CountUpTo(tags, k - 1) + Count(tags, k - 1)
  }

  /** Sum of the entries of s. */
  function Total(s: seq<int>): int
  {
    if |s| == 0 then 0 else Total(s[..|s| - 1]) + s[|s| - 1]
  }

  lemma {:induction false} CountSnoc(s: seq<nat>, t: nat, c: nat)
    ensures Count(s + [t], c) == Count(s, c) + (if t == c then 1 else 0)
  {
    assert (s + [t])[..|s|] == s;
  }

  lemma {:induction false} CountUpToSnoc(s: seq<nat>, t: nat, k: nat)
    ensures CountUpTo(s + [t], k) == CountUpTo(s, k) + (if t < k then 1 else 0)
  {
    if k > 0 {
      CountUpToSnoc(s, t, k - 1);
      CountSnoc(s, t, k - 1);
    }
  }

  /** When every tag names one of k clusters, the cluster sizes add up to the number of points. */
  lemma {:induction false} CountsCoverAll(tags: seq<nat>, k: nat)
    requires forall p :: 0 <= p < |tags| ==> tags[p] < k
    ensures CountUpTo(tags, k) == |tags|
  {
    if |tags| == 0 {
      CountUpToEmpty(tags, k);
    } else {
      var n := |tags| - 1;
      CountsCoverAll(tags[..n], k);
      CountUpToSnoc(tags[..n], tags[n], k);
      assert tags == tags[..n] + [tags[n]];
    }
  }

  lemma {:induction false} CountUpToEmpty(tags: seq<nat>, k: nat)
    requires |tags| == 0
    ensures CountUpTo(tags, k) == 0
  {
    if k > 0 { CountUpToEmpty(tags, k - 1); }
  }

  /** Adding Count(tags, c) to every entry c of a counter table adds CountUpTo(tags, k) to its total. */
  lemma {:induction false} TotalGrowth(before: seq<int>, after: seq<int>, tags: seq<nat>)
    requires |before| == |after|
    requires forall c :: 0 <= c < |before| ==> after[c] == before[c] + Count(tags, c)
    ensures Total(after) == Total(before) + CountUpTo(tags, |before|)
  {
    if |before| > 0 {
      var n := |before| - 1;
      TotalGrowth(before[..n], after[..n], tags);
    }
  }

  /**
   * Adding the cluster sizes of one assignment pass to a table of counters
   * adds exactly one per point: every point lands in exactly one cluster.
   */
  lemma EveryPointCounted(pts: seq<Vector>, cents: seq<Vector>, before: seq<int>, after: seq<int>)
    requires Shaped(pts, cents) && |before| == |after| == |cents|
    requires forall c :: 0 <= c < |cents| ==> after[c] == before[c] + Count(Assignment(pts, cents), c)
    ensures Total(after) == Total(before) + |pts|
  {
    var tags := Assignment(pts, cents);
    forall p | 0 <= p < |tags|
      ensures tags[p] < |cents|
    {
      AssignmentAt(pts, cents, p);
    }
    CountsCoverAll(tags, |cents|);
    TotalGrowth(before, after, tags);
  }

  /** Every cluster receives at least one point. */
  predicate NonEmpty(pts: seq<Vector>, cents: seq<Vector>)
    requires Shaped(pts, cents)
  {
    forall c :: 0 <= c < |cents| ==> Count(Assignment(pts, cents), c) > 0
  }

  /**
   * A cluster's sum divided by its size. An empty cluster keeps its (zero)
   * sum: that value is never used by a run whose rounds have no empty cluster.
   */
  function Quotient(sum: real, size: nat): real
  {
    if size == 0 then sum else sum / (size as real)
  }

  /** One round: every centroid becomes the mean of the points assigned to it. */
  function Round(pts: seq<Vector>, cents: seq<Vector>): (next: seq<Vector>)
    requires Shaped(pts, cents)
    ensures |next| == |cents| && Shaped(pts, next) && |next[0]| == |cents[0]|
  {
    Means(pts, Assignment(pts, cents), |cents|, |cents[0]|)
  }

  /** The means of clusters 0..k-1 over the first d coordinates. */
  function Means(pts: seq<Vector>, tags: seq<nat>, k: nat, d: nat): (r: seq<Vector>)
    requires |pts| == |tags| && forall p :: 0 <= p < |pts| ==> d <= |pts[p]|
    ensures |r| == k && SameDim(r, d)
  {
    if k == 0 then [] else Means(pts, tags, k - 1, d) + [Mean(pts, tags, k - 1, d)]
  }

  /** The mean of the points tagged c, over the first d coordinates. */
  function Mean(pts: seq<Vector>, tags: seq<nat>, c: nat, d: nat): (r: Vector)
    requires |pts| == |tags| && forall p :: 0 <= p < |pts| ==> d <= |pts[p]|
    ensures |r| == d
  {
    if d == 0 then []
    else Mean(pts, tags, c, d - 1) + [Quotient(MemberSum(pts, tags, c, d - 1), Count(tags, c))]
  }

  lemma {:induction false} MeanAt(pts: seq<Vector>, tags: seq<nat>, c: nat, d: nat, i: nat)
    requires |pts| == |tags| && (forall p :: 0 <= p < |pts| ==> d <= |pts[p]|) && i < d
    ensures Mean(pts, tags, c, d)[i] == Quotient(MemberSum(pts, tags, c, i), Count(tags, c))
  {
    if i < d - 1 {
      MeanAt(pts, tags, c, d - 1, i);
    }
  }

  lemma {:induction false} MeansAt(pts: seq<Vector>, tags: seq<nat>, k: nat, d: nat, c: nat, i: nat)
    requires |pts| == |tags| && (forall p :: 0 <= p < |pts| ==> d <= |pts[p]|)
    requires c < k && i < d
    ensures Means(pts, tags, k, d)[c][i] == Quotient(MemberSum(pts, tags, c, i), Count(tags, c))
  {
    if c < k - 1 {
      MeansAt(pts, tags, k - 1, d, c, i);
    } else {
      MeanAt(pts, tags, c, d, i);
    }
  }

  /** Coordinate i of new centroid c is the sum of coordinate i over its members divided by their number. */
  lemma RoundAt(pts: seq<Vector>, cents: seq<Vector>, c: nat, i: nat)
    requires Shaped(pts, cents) && c < |cents| && i < |cents[0]|
    requires Count(Assignment(pts, cents), c) > 0
    ensures var tags := Assignment(pts, cents);
      Round(pts, cents)[c][i] == MemberSum(pts, tags, c, i) / (Count(tags, c) as real)
  {
    MeansAt(pts, Assignment(pts, cents), |cents|, |cents[0]|, c, i);
  }

  /** Number of coordinates among the first j in which x and y differ. */
  function DiffPrefix(x: Vector, y: Vector, j: nat): nat
    requires j <= |x| == |y|
  {
    if j == 0 then 0
    else DiffPrefix(x, y, j - 1) + (if x[j - 1] != y[j - 1] then 1 else 0)
  }

  /** One more coordinate in the count of differences. */
  lemma DiffPrefixStep(x: Vector, y: Vector, j: nat)
    requires j < |x| == |y|
    ensures DiffPrefix(x, y, j + 1) == DiffPrefix(x, y, j) + (if x[j] != y[j] then 1 else 0)
  {
  }

  /** Two centroid tables of the same shape. */
  predicate Comparable(a: seq<Vector>, b: seq<Vector>)
  {
    |a| == |b| && forall c :: 0 <= c < |a| ==> |a[c]| == |b[c]|
  }

  /** Number of (cluster, coordinate) pairs among the first k clusters in which a and b differ. */
  function ChangesPrefix(a: seq<Vector>, b: seq<Vector>, k: nat): nat
    requires Comparable(a, b) && k <= |a|
  {
    if k == 0 then 0
    else ChangesPrefix(a, b, k - 1) + DiffPrefix(a[k - 1], b[k - 1], |a[k - 1]|)
  }

  /** One more cluster in the count of differences. */
  lemma ChangesPrefixStep(a: seq<Vector>, b: seq<Vector>, i: nat)
    requires Comparable(a, b) && i < |a|
    ensures ChangesPrefix(a, b, i + 1) == ChangesPrefix(a, b, i) + DiffPrefix(a[i], b[i], |a[i]|)
  {
  }

  /** Number of (cluster, coordinate) pairs in which a and b differ. */
  function Changes(a: seq<Vector>, b: seq<Vector>): nat
    requires Comparable(a, b)
  {
    ChangesPrefix(a, b, |a|)
  }

  lemma {:induction false} DiffPrefixBounds(x: Vector, y: Vector, j: nat)
    requires j <= |x| == |y|
    ensures DiffPrefix(x, y, j) <= j
    ensures DiffPrefix(x, y, j) == 0 <==> x[..j] == y[..j]
  {
    if j > 0 {
      DiffPrefixBounds(x, y, j - 1);
      assert x[..j] == x[..j - 1] + [x[j - 1]];
      assert y[..j] == y[..j - 1] + [y[j - 1]];
    }
  }

  lemma {:induction false} ChangesPrefixBounds(a: seq<Vector>, b: seq<Vector>, k: nat, d: nat)
    requires Comparable(a, b) && SameDim(a, d) && k <= |a|
    ensures ChangesPrefix(a, b, k) <= k * d
    ensures ChangesPrefix(a, b, k) == 0 <==> a[..k] == b[..k]
  {
    if k > 0 {
      ChangesPrefixBounds(a, b, k - 1, d);
      DiffPrefixBounds(a[k - 1], b[k - 1], d);
      assert a[k - 1][..d] == a[k - 1] && b[k - 1][..d] == b[k - 1];
      assert (k - 1) * d + d == k * d;
      assert a[..k] == a[..k - 1] + [a[k - 1]];
      assert b[..k] == b[..k - 1] + [b[k - 1]];
    }
  }

  /** The change count lies in [0, K*D] and is zero exactly when the two tables are equal. */
  lemma ChangesBounds(a: seq<Vector>, b: seq<Vector>, d: nat)
    requires Comparable(a, b) && SameDim(a, d)
    ensures Changes(a, b) <= |a| * d
    ensures Changes(a, b) == 0 <==> a == b
  {
    ChangesPrefixBounds(a, b, |a|, d);
    assert a[..|a|] == a && b[..|b|] == b;
  }

  /** Where a run stands: its final centroids and how many rounds it performed. */
  datatype Run = Run(centroids: seq<Vector>, rounds: nat)

  /** A run from the given centroids: at most budget rounds, stopping after the first round that changes nothing. */
  function Lloyd(pts: seq<Vector>, cents: seq<Vector>, budget: int): (run: Run)
    requires Shaped(pts, cents)
    ensures Shaped(pts, run.centroids) && |run.centroids| == |cents| && |run.centroids[0]| == |cents[0]|
    decreases budget
  {
    if budget <= 0 then Run(cents, 0)
    else
      var next := Round(pts, cents);
      if Changes(cents, next) == 0 then Run(next, 1)
      else
        var rest := Lloyd(pts, next, budget - 1);
        Run(rest.centroids, rest.rounds + 1)
  }

  /** No round that a run with this budget performs leaves a cluster empty. */
  predicate NoEmptyCluster(pts: seq<Vector>, cents: seq<Vector>, budget: int)
    requires Shaped(pts, cents)
    decreases budget
  {
    budget <= 0 ||
    (NonEmpty(pts, cents) &&
     var next := Round(pts, cents);
     Changes(cents, next) == 0 || NoEmptyCluster(pts, next, budget - 1))
  }

  /** The centroids after t rounds, with no stopping rule. */
  function Iterate(pts: seq<Vector>, cents: seq<Vector>, t: nat): (r: seq<Vector>)
    requires Shaped(pts, cents)
    ensures Shaped(pts, r) && |r| == |cents| && |r[0]| == |cents[0]|
    decreases t
  {
    if t == 0 then cents else Iterate(pts, Round(pts, cents), t - 1)
  }

  /** The change count of round t (counting from 1), with no stopping rule. */
  function ChangesAt(pts: seq<Vector>, cents: seq<Vector>, t: nat): nat
    requires Shaped(pts, cents) && 1 <= t
    decreases t
  {
    if t == 1 then Changes(cents, Round(pts, cents))
    else ChangesAt(pts, Round(pts, cents), t - 1)
  }

  /** Round t + 1 from the given centroids is round t from the centroids one round later. */
  lemma ChangesAtNext(pts: seq<Vector>, cents: seq<Vector>, t: nat)
    requires Shaped(pts, cents) && 1 <= t
    ensures ChangesAt(pts, cents, t + 1) == ChangesAt(pts, Round(pts, cents), t)
  {
  }

  /** A run never performs more rounds than its budget, and performs at least one when the budget allows. */
  lemma {:induction false} LloydRoundsBounded(pts: seq<Vector>, cents: seq<Vector>, budget: int)
    requires Shaped(pts, cents)
    ensures budget <= 0 ==> Lloyd(pts, cents, budget).rounds == 0
    ensures budget >= 1 ==> 1 <= Lloyd(pts, cents, budget).rounds <= budget
    decreases budget
  {
    if budget > 0 {
      var next := Round(pts, cents);
      if Changes(cents, next) != 0 {
        LloydRoundsBounded(pts, next, budget - 1);
      }
    }
  }

  /** The centroids of a run are those of the unstopped iteration after as many rounds as the run performed. */
  lemma {:induction false} LloydIsIterate(pts: seq<Vector>, cents: seq<Vector>, budget: int)
    requires Shaped(pts, cents)
    ensures Lloyd(pts, cents, budget).centroids == Iterate(pts, cents, Lloyd(pts, cents, budget).rounds)
    decreases budget
  {
    if budget > 0 {
      var next := Round(pts, cents);
      if Changes(cents, next) == 0 {
        assert Lloyd(pts, cents, budget) == Run(next, 1);
        assert Iterate(pts, cents, 1) == Iterate(pts, next, 0);
      } else {
        var rest := Lloyd(pts, next, budget - 1);
        assert Lloyd(pts, cents, budget) == Run(rest.centroids, rest.rounds + 1);
        LloydIsIterate(pts, next, budget - 1);
        assert Iterate(pts, cents, rest.rounds + 1) == Iterate(pts, next, rest.rounds);
      }
    }
  }

  /** Every round of a run before its last one changed at least one coordinate. */
  lemma {:induction false} LloydEarlierRoundsChange(pts: seq<Vector>, cents: seq<Vector>, budget: int, t: nat)
    requires Shaped(pts, cents)
    requires 1 <= t < Lloyd(pts, cents, budget).rounds
    ensures ChangesAt(pts, cents, t) > 0
    decreases budget
  {
    var next := Round(pts, cents);
    if t > 1 {
      LloydEarlierRoundsChange(pts, next, budget - 1, t - 1);
    }
  }

  /** A run that stops before its budget stops right after a round whose change count is zero. */
  lemma {:induction false} LloydStopsOnQuietRound(pts: seq<Vector>, cents: seq<Vector>, budget: int)
    requires Shaped(pts, cents)
    requires Lloyd(pts, cents, budget).rounds < budget
    ensures 1 <= Lloyd(pts, cents, budget).rounds
    ensures ChangesAt(pts, cents, Lloyd(pts, cents, budget).rounds) == 0
    decreases budget
  {
    var next := Round(pts, cents);
    var run := Lloyd(pts, cents, budget);
    if Changes(cents, next) == 0 {
      assert run.rounds == 1;
      assert ChangesAt(pts, cents, 1) == 0;
    } else {
      var rest := Lloyd(pts, next, budget - 1);
      assert run.rounds == rest.rounds + 1;
      LloydStopsOnQuietRound(pts, next, budget - 1);
      ChangesAtNext(pts, cents, rest.rounds);
      assert ChangesAt(pts, cents, run.rounds) == 0;
    }
  }

  /** When a run stops before its budget, its centroids are a fixed point of a round. */
  lemma {:induction false} EarlyStopIsFixedPoint(pts: seq<Vector>, cents: seq<Vector>, budget: int)
    requires Shaped(pts, cents)
    requires Lloyd(pts, cents, budget).rounds < budget
    ensures Round(pts, Lloyd(pts, cents, budget).centroids) == Lloyd(pts, cents, budget).centroids
    decreases budget
  {
    var next := Round(pts, cents);
    ChangesBounds(cents, next, |cents[0]|);
    if Changes(cents, next) != 0 {
      EarlyStopIsFixedPoint(pts, next, budget - 1);
    }
  }

  /** Round t of the unstopped iteration turns the centroids after t - 1 rounds into those after t, and ChangesAt counts that step. */
  lemma {:induction false} IterateStep(pts: seq<Vector>, cents: seq<Vector>, t: nat)
    requires Shaped(pts, cents) && 1 <= t
    ensures var before := Iterate(pts, cents, t - 1);
      var after := Iterate(pts, cents, t);
      && after == Round(pts, before)
      && Comparable(before, after)
      && ChangesAt(pts, cents, t) == Changes(before, after)
    decreases t
  {
    var before := Iterate(pts, cents, t - 1);
    var after := Iterate(pts, cents, t);
    assert Comparable(before, after);
    if t > 1 {
      IterateStep(pts, Round(pts, cents), t - 1);
    }
  }

  /**
   * A run whose last round changed nothing ends on a fixed point of a round,
   * whether it stopped early or on its last budgeted round.
   */
  lemma ConvergedRunIsFixedPoint(pts: seq<Vector>, cents: seq<Vector>, budget: int)
    requires Shaped(pts, cents)
    requires 1 <= Lloyd(pts, cents, budget).rounds
    requires ChangesAt(pts, cents, Lloyd(pts, cents, budget).rounds) == 0
    ensures Round(pts, Lloyd(pts, cents, budget).centroids) == Lloyd(pts, cents, budget).centroids
  {
    var t := Lloyd(pts, cents, budget).rounds;
    LloydIsIterate(pts, cents, budget);
    IterateStep(pts, cents, t);
    var before := Iterate(pts, cents, t - 1);
    ChangesBounds(before, Iterate(pts, cents, t), |before[0]|);
  }

  /** Feeding a fixed point back in as seeds returns it after a single round. */
  lemma FixedPointStopsAtOnce(pts: seq<Vector>, cents: seq<Vector>, budget: int)
    requires Shaped(pts, cents) && Round(pts, cents) == cents && budget >= 1
    ensures Lloyd(pts, cents, budget) == Run(cents, 1)
  {
    ChangesBounds(cents, cents, |cents[0]|);
  }

  /** With a single cluster every point joins it, whatever the centroid. */
  lemma OneClusterTakesAll(pts: seq<Vector>, cents: seq<Vector>)
    requires Shaped(pts, cents) && |cents| == 1
    ensures Assignment(pts, cents) == seq(|pts|, p => 0)
    ensures Count(Assignment(pts, cents), 0) == |pts|
  {
    var tags := Assignment(pts, cents);
    forall p | 0 <= p < |pts|
      ensures tags[p] == 0
    {
      AssignmentAt(pts, cents, p);
    }
    CountsCoverAll(tags, 1);
  }

  /**
   * With a single cluster, a round yields the mean of all points whatever
   * the seed, so a run performs two rounds (one when the seed already is
   * that mean) and ends on the mean.
   */
  lemma OneClusterSettles(pts: seq<Vector>, cents: seq<Vector>, budget: int)
    requires Shaped(pts, cents) && |cents| == 1 && |pts| >= 1 && budget >= 2
    ensures var mean := Round(pts, cents);
      && (forall i :: 0 <= i < |cents[0]| ==>
            mean[0][i] == MemberSum(pts, Assignment(pts, cents), 0, i) / (|pts| as real))
      && Lloyd(pts, cents, budget) == Run(mean, if mean == cents then 1 else 2)
  {
    var mean := Round(pts, cents);
    OneClusterTakesAll(pts, cents);
    OneClusterTakesAll(pts, mean);
    forall i | 0 <= i < |cents[0]|
      ensures mean[0][i] == MemberSum(pts, Assignment(pts, cents), 0, i) / (|pts| as real)
    {
      RoundAt(pts, cents, 0, i);
    }
    assert Round(pts, mean) == mean;
    ChangesBounds(cents, mean, |cents[0]|);
    ChangesBounds(mean, mean, |cents[0]|);
  }

  /**
   * A concrete run in one dimension: points 1, 2, 9 and 10 seeded with the
   * first and third point split into {1, 2} and {9, 10}. The first round moves
   * the centroids to 1.5 and 9.5 and the second changes nothing.
   */
  lemma TwoClusterScenario()
    ensures var pts := [[1.0], [2.0], [9.0], [10.0]];
      var seeds := [[1.0], [9.0]];
      && Shaped(pts, seeds)
      && NoEmptyCluster(pts, seeds, 10)
      && Lloyd(pts, seeds, 10) == Run([[1.5], [9.5]], 2)
  {
    var pts := [[1.0], [2.0], [9.0], [10.0]];
    var seeds := [[1.0], [9.0]];
    var means := [[1.5], [9.5]];
    ScenarioRound(pts, seeds, means);
    ScenarioRound(pts, means, means);
    ChangesBounds(seeds, means, 1);
    ChangesBounds(means, means, 1);
  }

  /** One round of the scenario: points 1 and 2 join cluster 0, points 9 and 10 cluster 1. */
  lemma ScenarioRound(pts: seq<Vector>, cents: seq<Vector>, means: seq<Vector>)
    requires pts == [[1.0], [2.0], [9.0], [10.0]] && means == [[1.5], [9.5]]
    requires cents == [[1.0], [9.0]] || cents == means
    ensures Shaped(pts, cents) && NonEmpty(pts, cents) && Round(pts, cents) == means
  {
    var tags := [0, 0, 1, 1];
    ScenarioTags(pts, cents, tags);
    ScenarioTallies(pts, tags);
    assert 3.0 / (2 as real) == 1.5 && 19.0 / (2 as real) == 9.5;
    RoundOfTwo(pts, cents, tags, 1.5, 9.5);
  }

  /** The scenario's points split into {1, 2} and {9, 10} around either pair of centroids. */
  lemma ScenarioTags(pts: seq<Vector>, cents: seq<Vector>, tags: seq<nat>)
    requires pts == [[1.0], [2.0], [9.0], [10.0]] && tags == [0, 0, 1, 1]
    requires cents == [[1.0], [9.0]] || cents == [[1.5], [9.5]]
    ensures Shaped(pts, cents) && Assignment(pts, cents) == tags
  {
    forall p | 0 <= p < 4
      ensures tags[p] == Nearest(pts[p], cents)
    {
      NearestOfTwo(pts[p], cents);
    }
    AssignmentOfNearest(pts, cents, tags);
  }

  /** A one-dimensional round with two non-empty clusters, from their sizes and sums. */
  lemma RoundOfTwo(pts: seq<Vector>, cents: seq<Vector>, tags: seq<nat>, a: real, b: real)
    requires Shaped(pts, cents) && |cents| == 2 && |cents[0]| == 1
    requires Assignment(pts, cents) == tags && Count(tags, 0) > 0 && Count(tags, 1) > 0
    requires a == MemberSum(pts, tags, 0, 0) / (Count(tags, 0) as real)
    requires b == MemberSum(pts, tags, 1, 0) / (Count(tags, 1) as real)
    ensures NonEmpty(pts, cents) && Round(pts, cents) == [[a], [b]]
  {
    var r := Round(pts, cents);
    RoundAt(pts, cents, 0, 0);
    RoundAt(pts, cents, 1, 0);
    assert r[0] == [a] && r[1] == [b];
  }

  /** With two centroids in one dimension, the second wins only when strictly closer. */
  lemma NearestOfTwo(p: Vector, cents: seq<Vector>)
    requires |p| == 1 && |cents| == 2 && SameDim(cents, 1)
    ensures Nearest(p, cents) == if Sq(p[0] - cents[1][0]) < Sq(p[0] - cents[0][0]) then 1 else 0
  {
    SqDistOne(p, cents[0]);
    SqDistOne(p, cents[1]);
  }

  lemma SqDistOne(x: Vector, y: Vector)
    requires |x| == |y| == 1
    ensures SqDist(x, y) == Sq(x[0] - y[0])
  {
    assert x[..0] == [] && y[..0] == [];
  }

  /** Cluster sizes and coordinate sums of the scenario's split. */
  lemma ScenarioTallies(pts: seq<Vector>, tags: seq<nat>)
    requires pts == [[1.0], [2.0], [9.0], [10.0]] && tags == [0, 0, 1, 1]
    ensures Count(tags, 0) == 2 && Count(tags, 1) == 2
    ensures MemberSum(pts, tags, 0, 0) == 3.0 && MemberSum(pts, tags, 1, 0) == 19.0
  {
    var t1: seq<nat>, t2: seq<nat>, t3: seq<nat> := [0], [0, 0], [0, 0, 1];
    var p1, p2, p3 := [[1.0]], [[1.0], [2.0]], [[1.0], [2.0], [9.0]];
    assert t1[..0] == [] && p1[..0] == [];
    assert t2[..1] == t1 && p2[..1] == p1;
    assert t3[..2] == t2 && p3[..2] == p2;
    assert tags[..3] == t3 && pts[..3] == p3;
    assert Count(t1, 0) == 1 && Count(t1, 1) == 0;
    assert MemberSum(p1, t1, 0, 0) == 1.0 && MemberSum(p1, t1, 1, 0) == 0.0;
    assert Count(t2, 0) == 2 && Count(t2, 1) == 0;
    assert MemberSum(p2, t2, 0, 0) == 3.0 && MemberSum(p2, t2, 1, 0) == 0.0;
    assert Count(t3, 0) == 2 && Count(t3, 1) == 1;
    assert MemberSum(p3, t3, 0, 0) == 3.0 && MemberSum(p3, t3, 1, 0) == 9.0;
  }
}
