/**
 * The fitting loop of the k-means extension module, on its own buffers.
 *
 * The point store is an N x (D+1) matrix: row p holds the D coordinates of
 * point p followed by one slot for the index of the cluster it was last
 * assigned to. The K clusters are kept as parallel tables: row c of
 * prevCentroid and of currCentroid and entry c of counter make up cluster c.
 * Every operation updates these buffers in place and is proved against the
 * value-level definitions of LloydMath.
 */
module KMeans {
  import opened LloydMath

  /** The first d coordinates of row r of m. */
  function Row(m: array2<real>, r: nat, d: nat): Vector
    requires r < m.Length0 && d <= m.Length1
    reads m
  {
    seq(d, i requires 0 <= i < d reads m => m[r, i])
  }

  /** Every row of m, cut to its first d coordinates. */
  function Rows(m: array2<real>, d: nat): seq<Vector>
    requires d <= m.Length1
    reads m
  {
    seq(m.Length0, r requires 0 <= r < m.Length0 reads m => Row(m, r, d))
  }

  /** Row r of Rows(m, d) is Row(m, r, d). */
  lemma RowsAt(m: array2<real>, d: nat, r: nat)
    requires d <= m.Length1 && r < m.Length0
    ensures |Rows(m, d)| == m.Length0 && Rows(m, d)[r] == Row(m, r, d) && |Row(m, r, d)| == d
  {
  }

  /** Row(m, r, d) is v when row r of m agrees with v entry by entry. */
  lemma RowIs(m: array2<real>, r: nat, d: nat, v: Vector)
    requires r < m.Length0 && d <= m.Length1 && |v| == d
    requires forall i :: 0 <= i < d ==> m[r, i] == v[i]
    ensures Row(m, r, d) == v
  {
  }

  /** Rows(m, d) is vs when m agrees with vs entry by entry. */
  lemma RowsAre(m: array2<real>, d: nat, vs: seq<Vector>)
    requires d <= m.Length1 && |vs| == m.Length0 && SameDim(vs, d)
    requires forall r, i :: 0 <= r < m.Length0 && 0 <= i < d ==> m[r, i] == vs[r][i]
    ensures Rows(m, d) == vs
  {
    forall r | 0 <= r < m.Length0
      ensures Rows(m, d)[r] == vs[r]
    {
      RowIs(m, r, d, vs[r]);
    }
  }

  /** The seed centroids: the points named by the initial indices, in cluster order. */
  function Seeds(pts: seq<Vector>, firstCentralIndexes: seq<int>): seq<Vector>
    requires forall i :: 0 <= i < |firstCentralIndexes| ==> 0 <= firstCentralIndexes[i] < |pts|
  {
    seq(|firstCentralIndexes|, i requires 0 <= i < |firstCentralIndexes| => pts[firstCentralIndexes[i]])
  }

  /** Squared distance between the first dimension coordinates of row r1 of vec1 and row r2 of vec2. */
  method VectorsNorm(vec1: array2<real>, r1: nat, vec2: array2<real>, r2: nat, dimension: nat)
    returns (norm: real)
    requires r1 < vec1.Length0 && r2 < vec2.Length0
    requires dimension <= vec1.Length1 && dimension <= vec2.Length1
    ensures norm == SqDist(Row(vec1, r1, dimension), Row(vec2, r2, dimension))
  {
    norm := 0.0;
    for i := 0 to dimension
      invariant norm == SqDist(Row(vec1, r1, i), Row(vec2, r2, i))
    {
      assert Row(vec1, r1, i + 1)[..i] == Row(vec1, r1, i);
      assert Row(vec2, r2, i + 1)[..i] == Row(vec2, r2, i);
      norm := norm + Sq(vec1[r1, i] - vec2[r2, i]);
    }
  }

  class Clusters {
    /** Number of clusters. */
    const k: nat
    /** Number of coordinates of a point. */
    const dim: nat
    /** Row c: the centroid of cluster c that the current round measures against. */
    const prevCentroid: array2<real>
    /** Row c: the running sum of the members of cluster c, then their mean. */
    const currCentroid: array2<real>
    /** Entry c: the number of points assigned to cluster c in the current round. */
    const counter: array<int>

    ghost predicate Valid()
    {
      && prevCentroid.Length0 == k && prevCentroid.Length1 == dim
      && currCentroid.Length0 == k && currCentroid.Length1 == dim
      && counter.Length == k
      && prevCentroid != currCentroid
    }

    function Prev(): seq<Vector>
      requires Valid()
      reads prevCentroid
    {
      Rows(prevCentroid, dim)
    }

    function Curr(): seq<Vector>
      requires Valid()
      reads currCentroid
    {
      Rows(currCentroid, dim)
    }

    /**
     * Allocates K clusters; cluster c starts with the coordinates of point
     * firstCentralIndexes[c] as its current centroid and an empty count.
     * Its previous centroid is left unset.
     */
    constructor (points: array2<real>, k: nat, dim: nat, firstCentralIndexes: seq<int>)
      requires points.Length1 == dim + 1
      requires |firstCentralIndexes| == k
      requires forall i :: 0 <= i < k ==> 0 <= firstCentralIndexes[i] < points.Length0
      ensures Valid() && this.k == k && this.dim == dim
      ensures fresh(prevCentroid) && fresh(currCentroid) && fresh(counter)
      ensures Curr() == Seeds(Rows(points, dim), firstCentralIndexes)
      ensures forall c :: 0 <= c < k ==> counter[c] == 0
    {
      this.k := k;
      this.dim := dim;
      prevCentroid := new real[k, dim];
      currCentroid := new real[k, dim];
      counter := new int[k];
      new;
      for i := 0 to k
        invariant forall c :: 0 <= c < i ==> counter[c] == 0
        invariant forall c, j :: 0 <= c < i && 0 <= j < dim ==>
          currCentroid[c, j] == points[firstCentralIndexes[c], j]
      {
        counter[i] := 0;
        for j := 0 to dim
          invariant forall c :: 0 <= c <= i ==> counter[c] == 0
          invariant forall c, j' :: 0 <= c < i && 0 <= j' < dim ==>
            currCentroid[c, j'] == points[firstCentralIndexes[c], j']
          invariant forall j' :: 0 <= j' < j ==> currCentroid[i, j'] == points[firstCentralIndexes[i], j']
        {
          currCentroid[i, j] := points[firstCentralIndexes[i], j];
        }
      }
      ghost var seeds := Seeds(Rows(points, dim), firstCentralIndexes);
      forall c | 0 <= c < k
        ensures Curr()[c] == seeds[c]
      {
        assert Curr()[c] == Row(currCentroid, c, dim);
        assert seeds[c] == Row(points, firstCentralIndexes[c], dim);
      }
    }

    /**
     * The nearest cluster to point p, measured against the previous
     * centroids; on a tie the lowest index wins.
     */
    method FindMyCluster(points: array2<real>, p: nat) returns (myCluster: nat)
      requires Valid() && k >= 1
      requires p < points.Length0 && dim <= points.Length1
      ensures myCluster < k
      ensures myCluster == Nearest(Row(points, p, dim), Prev())
    {
      ghost var cents := Prev();
      forall c | 0 <= c < k
        ensures cents[c] == Row(prevCentroid, c, dim)
      {
        RowsAt(prevCentroid, dim, c);
      }
      myCluster := Closest(points, p, Row(points, p, dim), cents);
    }

    /**
     * The loop of FindMyCluster: v is point p and cents are the previous
     * centroids, as values.
     */
    method Closest(points: array2<real>, p: nat, ghost v: Vector, ghost cents: seq<Vector>) returns (myCluster: nat)
      requires Valid() && k >= 1
      requires p < points.Length0 && dim <= points.Length1
      requires v == Row(points, p, dim) && |cents| == k && SameDim(cents, dim)
      requires forall c :: 0 <= c < k ==> cents[c] == Row(prevCentroid, c, dim)
      ensures myCluster < k && myCluster == Nearest(v, cents)
    {
      myCluster := 0;
      var minNorm := VectorsNorm(points, p, prevCentroid, 0, dim);
      for j := 1 to k
        invariant myCluster < j
        invariant myCluster == NearestAmong(v, cents, j)
        invariant minNorm == SqDist(v, cents[myCluster])
      {
        var norm := VectorsNorm(points, p, prevCentroid, j, dim);
        NearestAmongNext(v, cents, j);
        if norm < minNorm {
          myCluster := j;
          minNorm := norm;
        }
      }
    }

    /**
     * Tags every point with its nearest cluster, adds its coordinates into
     * that cluster's running sum and counts it there.
     */
    method AssignVectorsToClusters(points: array2<real>)
      requires Valid() && k >= 1
      requires points.Length1 == dim + 1
      requires points != prevCentroid && points != currCentroid
      modifies points, currCentroid, counter
      ensures Rows(points, dim) == old(Rows(points, dim))
      ensures var tags := Assignment(old(Rows(points, dim)), Prev());
        && (forall p :: 0 <= p < points.Length0 ==> points[p, dim] == tags[p] as real)
        && (forall c :: 0 <= c < k ==> counter[c] == old(counter[c]) + Count(tags, c))
        && (forall c, i :: 0 <= c < k && 0 <= i < dim ==>
              currCentroid[c, i] == old(currCentroid[c, i]) + MemberSum(old(Rows(points, dim)), tags, c, i))
      ensures Total(counter[..]) == old(Total(counter[..])) + points.Length0
    {
      ghost var pts := Rows(points, dim);
      ghost var cents := Prev();
      assert SameDim(pts, dim) && |cents| == k;
      assert forall q, i :: 0 <= q < points.Length0 && 0 <= i < dim ==> points[q, i] == pts[q][i];
      ghost var tags := TagAll(points, pts, cents);
      AssignmentOfNearest(pts, cents, tags);
      RowsAre(points, dim, pts);
      assert old(Rows(points, dim)) == pts && Prev() == cents;
      CountsCoverAll(tags, k);
      TotalGrowth(old(counter[..]), counter[..], tags);
    }

    /**
     * The loop of AssignVectorsToClusters, point by point; tags are the
     * clusters chosen, in point order.
     */
    method TagAll(points: array2<real>, ghost pts: seq<Vector>, ghost cents: seq<Vector>) returns (ghost tags: seq<nat>)
      requires Valid() && k >= 1
      requires points.Length1 == dim + 1
      requires points != prevCentroid && points != currCentroid
      requires |pts| == points.Length0 && SameDim(pts, dim) && cents == Prev()
      requires forall q, i :: 0 <= q < points.Length0 && 0 <= i < dim ==> points[q, i] == pts[q][i]
      modifies points, currCentroid, counter
      ensures |tags| == points.Length0
      ensures forall q :: 0 <= q < points.Length0 ==> tags[q] == Nearest(pts[q], cents)
      ensures forall q, i :: 0 <= q < points.Length0 && 0 <= i < dim ==> points[q, i] == pts[q][i]
      ensures forall q :: 0 <= q < points.Length0 ==> points[q, dim] == tags[q] as real
      ensures forall c :: 0 <= c < k ==> counter[c] == old(counter[c]) + Count(tags, c)
      ensures forall c, i :: 0 <= c < k && 0 <= i < dim ==>
        currCentroid[c, i] == old(currCentroid[c, i]) + MemberSum(pts, tags, c, i)
    {
      tags := [];
      for j := 0 to points.Length0
        invariant forall q, i :: 0 <= q < points.Length0 && 0 <= i < dim ==> points[q, i] == pts[q][i]
        invariant |tags| == j
        invariant forall q :: 0 <= q < j ==> tags[q] == Nearest(pts[q], cents)
        invariant forall q :: 0 <= q < j ==> points[q, dim] == tags[q] as real
        invariant forall c :: 0 <= c < k ==> counter[c] == old(counter[c]) + Count(tags, c)
        invariant forall c, i :: 0 <= c < k && 0 <= i < dim ==>
          currCentroid[c, i] == old(currCentroid[c, i]) + MemberSum(pts[..j], tags, c, i)
      {
        RowIs(points, j, dim, pts[j]);
        var myCluster := AssignPoint(points, j);
        TallyStep(pts, tags, j, myCluster, k, dim);
        tags := tags + [myCluster];
      }
      assert pts[..points.Length0] == pts;
    }

    /**
     * Tags point j with its nearest cluster, adds its coordinates into that
     * cluster's running sum and counts it there.
     */
    method AssignPoint(points: array2<real>, j: nat) returns (myCluster: nat)
      requires Valid() && k >= 1
      requires points.Length1 == dim + 1 && j < points.Length0
      requires points != prevCentroid && points != currCentroid
      modifies points, currCentroid, counter
      ensures myCluster < k && myCluster == Nearest(old(Row(points, j, dim)), Prev())
      ensures forall q, i :: 0 <= q < points.Length0 && 0 <= i <= dim ==>
        points[q, i] == if q == j && i == dim then myCluster as real else old(points[q, i])
      ensures forall c, i :: 0 <= c < k && 0 <= i < dim ==>
        currCentroid[c, i] == old(currCentroid[c, i]) + (if c == myCluster then points[j, i] else 0.0)
      ensures forall c :: 0 <= c < k ==> counter[c] == old(counter[c]) + (if c == myCluster then 1 else 0)
    {
      myCluster := FindMyCluster(points, j);
      points[j, dim] := myCluster as real;
      AddToSum(points, j, myCluster);
      counter[myCluster] := counter[myCluster] + 1;
    }

    /** Adds the coordinates of point j into the running sum of cluster myCluster. */
    method AddToSum(points: array2<real>, j: nat, myCluster: nat)
      requires Valid() && j < points.Length0 && dim <= points.Length1 && myCluster < k
      requires points != currCentroid
      modifies currCentroid
      ensures forall c, i :: 0 <= c < k && 0 <= i < dim ==>
        currCentroid[c, i] == old(currCentroid[c, i]) + (if c == myCluster then points[j, i] else 0.0)
    {
      for i := 0 to dim
        invariant forall c, i' :: 0 <= c < k && 0 <= i' < dim ==>
          currCentroid[c, i'] == old(currCentroid[c, i']) + (if c == myCluster && i' < i then points[j, i'] else 0.0)
      {
        currCentroid[myCluster, i] := currCentroid[myCluster, i] + points[j, i];
      }
    }

    /**
     * Shifts every current centroid into the previous one, then clears the
     * running sums and the counters for a new round.
     */
    method InitCurrCentroidAndCounter()
      requires Valid()
      modifies prevCentroid, currCentroid, counter
      ensures Prev() == old(Curr())
      ensures forall c, j :: 0 <= c < k && 0 <= j < dim ==> currCentroid[c, j] == 0.0
      ensures forall c :: 0 <= c < k ==> counter[c] == 0
    {
      for i := 0 to k
        invariant forall c, j :: 0 <= c < i && 0 <= j < dim ==>
          prevCentroid[c, j] == old(currCentroid[c, j]) && currCentroid[c, j] == 0.0
        invariant forall c, j :: i <= c < k && 0 <= j < dim ==> currCentroid[c, j] == old(currCentroid[c, j])
        invariant forall c :: 0 <= c < i ==> counter[c] == 0
      {
        for j := 0 to dim
          modifies prevCentroid, currCentroid
          invariant forall c, j' :: 0 <= c < i && 0 <= j' < dim ==>
            prevCentroid[c, j'] == old(currCentroid[c, j']) && currCentroid[c, j'] == 0.0
          invariant forall j' :: 0 <= j' < j ==>
            prevCentroid[i, j'] == old(currCentroid[i, j']) && currCentroid[i, j'] == 0.0
          invariant forall c, j' :: 0 <= c < k && 0 <= j' < dim && (c > i || (c == i && j' >= j)) ==>
            currCentroid[c, j'] == old(currCentroid[c, j'])
        {
          prevCentroid[i, j] := currCentroid[i, j];
          currCentroid[i, j] := 0.0;
        }
        counter[i] := 0;
      }
      forall c | 0 <= c < k
        ensures Prev()[c] == old(Curr())[c]
      {
        assert Prev()[c] == Row(prevCentroid, c, dim);
        assert old(Curr())[c] == old(Row(currCentroid, c, dim));
      }
    }

    /**
     * Divides every running sum by its cluster's count, in place, and returns
     * how many coordinates of the new centroids differ from the previous ones.
     */
    method RecalcCentroids() returns (changes: int)
      requires Valid()
      requires forall c :: 0 <= c < k ==> counter[c] != 0
      modifies currCentroid
      ensures forall c, j :: 0 <= c < k && 0 <= j < dim ==>
        currCentroid[c, j] == old(currCentroid[c, j]) / (counter[c] as real)
      ensures Comparable(Prev(), Curr()) && changes == Changes(Prev(), Curr())
      ensures 0 <= changes <= k * dim
    {
      ghost var prev := Prev();
      ghost var sums := Curr();
      ghost var counts := counter[..];
      ghost var next := seq(k, c requires 0 <= c < k =>
        seq(dim, j requires 0 <= j < dim => sums[c][j] / (counts[c] as real)));
      assert forall c, j :: 0 <= c < k && 0 <= j < dim ==> prevCentroid[c, j] == prev[c][j];
      assert forall c, j :: 0 <= c < k && 0 <= j < dim ==>
        next[c][j] == currCentroid[c, j] / (counter[c] as real);
      changes := DivideRows(prev, next);
      RowsAre(currCentroid, dim, next);
      assert Prev() == prev;
      ChangesBounds(prev, next, dim);
    }

    /**
     * The loop of RecalcCentroids: cluster by cluster, divides the sums into
     * the quotients next and counts the coordinates that differ from prev.
     */
    method DivideRows(ghost prev: seq<Vector>, ghost next: seq<Vector>) returns (changes: int)
      requires Valid() && |prev| == k && |next| == k && SameDim(prev, dim) && SameDim(next, dim)
      requires forall c :: 0 <= c < k ==> counter[c] != 0
      requires forall c, j :: 0 <= c < k && 0 <= j < dim ==> prevCentroid[c, j] == prev[c][j]
      requires forall c, j :: 0 <= c < k && 0 <= j < dim ==>
        next[c][j] == currCentroid[c, j] / (counter[c] as real)
      modifies currCentroid
      ensures forall c, j :: 0 <= c < k && 0 <= j < dim ==> currCentroid[c, j] == next[c][j]
      ensures changes == ChangesPrefix(prev, next, k)
    {
      changes := 0;
      for i := 0 to k
        invariant forall c, j :: 0 <= c < i && 0 <= j < dim ==> currCentroid[c, j] == next[c][j]
        invariant forall c, j :: i <= c < k && 0 <= j < dim ==> currCentroid[c, j] == old(currCentroid[c, j])
        invariant changes == ChangesPrefix(prev, next, i)
      {
        var rowChanges := RecalcRow(i, prev[i], next[i]);
        ChangesPrefixStep(prev, next, i);
        changes := changes + rowChanges;
      }
    }

    /**
     * Divides the running sum of cluster i by its count, in place, and
     * returns how many of its coordinates differ from its previous centroid
     * (given as prevRow; nextRow is the row of quotients).
     */
    method RecalcRow(i: nat, ghost prevRow: Vector, ghost nextRow: Vector) returns (rowChanges: int)
      requires Valid() && i < k && counter[i] != 0
      requires |prevRow| == dim && |nextRow| == dim
      requires forall j :: 0 <= j < dim ==> prevCentroid[i, j] == prevRow[j]
      requires forall j :: 0 <= j < dim ==> nextRow[j] == currCentroid[i, j] / (counter[i] as real)
      modifies currCentroid
      ensures forall c, j :: 0 <= c < k && 0 <= j < dim ==>
        currCentroid[c, j] == if c == i then nextRow[j] else old(currCentroid[c, j])
      ensures rowChanges == DiffPrefix(prevRow, nextRow, dim)
    {
      rowChanges := 0;
      for j := 0 to dim
        invariant forall c, j' :: 0 <= c < k && 0 <= j' < dim ==>
          currCentroid[c, j'] == if c == i && j' < j then nextRow[j'] else old(currCentroid[c, j'])
        invariant rowChanges == DiffPrefix(prevRow, nextRow, j)
      {
        currCentroid[i, j] := currCentroid[i, j] / (counter[i] as real);
        DiffPrefixStep(prevRow, nextRow, j);
        rowChanges := rowChanges + if prevCentroid[i, j] != currCentroid[i, j] then 1 else 0;
      }
    }

    /**
     * One pass of the fit loop: shift the centroids and reset the sums,
     * assign every point, then turn the sums into means.
     */
    method Iteration(points: array2<real>, ghost pts: seq<Vector>, ghost cents: seq<Vector>) returns (changes: int)
      requires Valid() && k >= 1 && points.Length1 == dim + 1
      requires points != prevCentroid && points != currCentroid
      requires Rows(points, dim) == pts && Curr() == cents
      requires Shaped(pts, cents) && NonEmpty(pts, cents)
      modifies points, prevCentroid, currCentroid, counter
      ensures Rows(points, dim) == pts
      ensures Prev() == cents && Curr() == Round(pts, cents)
      ensures changes == Changes(cents, Curr())
      ensures forall c :: 0 <= c < k ==> counter[c] == Count(Assignment(pts, cents), c)
      ensures forall p :: 0 <= p < points.Length0 ==> points[p, dim] == Assignment(pts, cents)[p] as real
      ensures LastRound(points, pts)
    {
      ghost var tags := Assignment(pts, cents);
      assert |cents[0]| == dim;
      InitCurrCentroidAndCounter();
      AssignVectorsToClusters(points);
      assert forall c :: 0 <= c < k ==> counter[c] == Count(tags, c);
      assert forall c, j :: 0 <= c < k && 0 <= j < dim ==> currCentroid[c, j] == MemberSum(pts, tags, c, j);
      changes := RecalcCentroids();
      MeansAreRound(currCentroid, pts, cents);
    }

    /**
     * What the latest iteration leaves behind: the current centroids are one
     * round on from the previous ones, every counter holds the size of its
     * cluster and every point's tag slot holds its cluster, all measured
     * against the previous centroids.
     */
    ghost predicate LastRound(points: array2<real>, pts: seq<Vector>)
      requires Valid() && points.Length1 == dim + 1 && |pts| == points.Length0
      reads this, points, prevCentroid, currCentroid, counter
    {
      && Shaped(pts, Prev())
      && Curr() == Round(pts, Prev())
      && (forall c :: 0 <= c < k ==> counter[c] == Count(Assignment(pts, Prev()), c))
      && (forall p :: 0 <= p < points.Length0 ==> points[p, dim] == Assignment(pts, Prev())[p] as real)
    }

    /**
     * The loop of the fit: at most maxIter iterations, leaving after the
     * first one that changes no coordinate.
     */
    method Loop(points: array2<real>, maxIter: int, ghost pts: seq<Vector>, ghost run: Run) returns (ghost rounds: nat)
      requires Valid() && k >= 1 && points.Length1 == dim + 1
      requires points != prevCentroid && points != currCentroid
      requires Rows(points, dim) == pts && Shaped(pts, Curr())
      requires OnTrack(pts, Curr(), maxIter, run, 0)
      modifies points, prevCentroid, currCentroid, counter
      ensures Rows(points, dim) == pts
      ensures Curr() == run.centroids && rounds == run.rounds
      ensures rounds >= 1 ==> LastRound(points, pts)
    {
      ghost var cur := Curr();
      ghost var budget := maxIter;
      rounds := 0;
      var i := 0;
      while i < maxIter
        invariant Rows(points, dim) == pts
        invariant 0 <= i && (i <= maxIter || i == 0) && rounds == i && budget == maxIter - i
        invariant Curr() == cur && Shaped(pts, cur)
        invariant OnTrack(pts, cur, budget, run, i)
        invariant i >= 1 ==> LastRound(points, pts)
      {
        var nextI := i + 1;
        ghost var nextBudget := budget - 1;
        var changes := Step(points, pts, cur, budget, run, i, nextBudget, nextI);
        cur := Curr();
        rounds := nextI;
        if changes == 0 {
          break;
        }
        i, budget := nextI, nextBudget;
      }
      if i >= maxIter {
        OnTrackDone(pts, cur, budget, run, i);
      }
    }

    /**
     * One iteration of the fit loop while it is on track with Lloyd's
     * iteration: a quiet round ends the run, any other round leaves the fit
     * on track with one round less to go.
     */
    method Step(points: array2<real>, ghost pts: seq<Vector>, ghost cur: seq<Vector>, ghost budget: int,
                ghost run: Run, ghost done: nat, ghost nextBudget: int, ghost nextDone: nat) returns (changes: int)
      requires Valid() && k >= 1 && points.Length1 == dim + 1
      requires points != prevCentroid && points != currCentroid
      requires Rows(points, dim) == pts && Curr() == cur && Shaped(pts, cur)
      requires budget >= 1 && OnTrack(pts, cur, budget, run, done)
      requires nextBudget == budget - 1 && nextDone == done + 1
      modifies points, prevCentroid, currCentroid, counter
      ensures Rows(points, dim) == pts && Shaped(pts, Curr()) && LastRound(points, pts)
      ensures changes == 0 ==> run == Run(Curr(), nextDone)
      ensures changes != 0 ==> OnTrack(pts, Curr(), nextBudget, run, nextDone)
    {
      OnTrackNonEmpty(pts, cur, budget, run, done);
      changes := Iteration(points, pts, cur);
      ghost var next := Curr();
      if changes == 0 {
        OnTrackQuiet(pts, cur, next, budget, run, done);
      } else {
        OnTrackNext(pts, cur, next, budget, run, done, nextBudget, nextDone);
      }
    }
  }

  /** One more candidate in the nearest-cluster scan in the nearest-cluster scan: it wins only when strictly closer. */
  lemma NearestAmongNext(v: Vector, cents: seq<Vector>, j: nat)
    requires 1 <= j < |cents| && SameDim(cents, |v|)
    ensures var best := NearestAmong(v, cents, j);
      NearestAmong(v, cents, j + 1) == if SqDist(v, cents[j]) < SqDist(v, cents[best]) then j else best
  {
  }

  /** One more tagged point in the tallies: only its own cluster's count and sums grow. */
  lemma TallyStep(pts: seq<Vector>, tags: seq<nat>, j: nat, t: nat, k: nat, d: nat)
    requires |tags| == j < |pts| && SameDim(pts, d)
    ensures forall c :: 0 <= c < k ==>
      Count(tags + [t], c) == Count(tags, c) + (if t == c then 1 else 0)
    ensures forall c, i :: 0 <= c < k && 0 <= i < d ==>
      MemberSum(pts[..j + 1], tags + [t], c, i) == MemberSum(pts[..j], tags, c, i) + (if t == c then pts[j][i] else 0.0)
  {
    forall c | 0 <= c < k
      ensures Count(tags + [t], c) == Count(tags, c) + (if t == c then 1 else 0)
    {
      CountSnoc(tags, t, c);
    }
    forall c, i | 0 <= c < k && 0 <= i < d
      ensures MemberSum(pts[..j + 1], tags + [t], c, i) == MemberSum(pts[..j], tags, c, i) + (if t == c then pts[j][i] else 0.0)
    {
      MemberSumSnoc(pts, tags, j, t, c, i);
    }
  }

  /**
   * The whole fit: seeds the clusters, then runs at most maxIter rounds of
   * shift/reset, assignment and mean update, stopping after the first round
   * that changes no coordinate, and returns the current centroids.
   */
  method Fit(k: nat, maxIter: int, dim: nat, points: array2<real>, firstCentralIndexes: seq<int>)
    returns (centroids: seq<Vector>, ghost rounds: nat)
    requires k >= 1 && points.Length1 == dim + 1
    requires |firstCentralIndexes| == k
    requires forall i :: 0 <= i < k ==> 0 <= firstCentralIndexes[i] < points.Length0
    requires NoEmptyCluster(Rows(points, dim), Seeds(Rows(points, dim), firstCentralIndexes), maxIter)
    modifies points
    ensures Rows(points, dim) == old(Rows(points, dim))
    ensures var run := Lloyd(old(Rows(points, dim)), Seeds(old(Rows(points, dim)), firstCentralIndexes), maxIter);
      centroids == run.centroids && rounds == run.rounds
    ensures maxIter <= 0 ==> centroids == Seeds(old(Rows(points, dim)), firstCentralIndexes)
  {
    var clusters := new Clusters(points, k, dim, firstCentralIndexes);
    ghost var pts := Rows(points, dim);
    ghost var run := Lloyd(pts, Seeds(pts, firstCentralIndexes), maxIter);
    OnTrackStart(pts, Seeds(pts, firstCentralIndexes), maxIter);
    rounds := clusters.Loop(points, maxIter, pts, run);
    centroids := clusters.Curr();
  }

  /**
   * The fit so far agrees with Lloyd's iteration: done rounds have run, the
   * remaining budget runs without an empty cluster from cur, and finishing
   * from cur gives the final run.
   */
  ghost predicate OnTrack(pts: seq<Vector>, cur: seq<Vector>, budget: int, run: Run, done: nat)
    requires Shaped(pts, cur)
  {
    && NoEmptyCluster(pts, cur, budget)
    && Lloyd(pts, cur, budget).centroids == run.centroids
    && Lloyd(pts, cur, budget).rounds + done == run.rounds
  }

  /** A fit on track with budget left has no empty cluster in its next round. */
  lemma OnTrackNonEmpty(pts: seq<Vector>, cur: seq<Vector>, budget: int, run: Run, done: nat)
    requires Shaped(pts, cur) && budget >= 1 && OnTrack(pts, cur, budget, run, done)
    ensures NonEmpty(pts, cur)
  {
  }

  /** A round that changes nothing ends the fit exactly where Lloyd's iteration ends. */
  lemma OnTrackQuiet(pts: seq<Vector>, cur: seq<Vector>, next: seq<Vector>, budget: int, run: Run, done: nat)
    requires Shaped(pts, cur) && budget >= 1 && OnTrack(pts, cur, budget, run, done)
    requires next == Round(pts, cur) && Changes(cur, next) == 0
    ensures run == Run(next, done + 1)
  {
  }

  /** A round that changes something keeps the fit on track with one round less to go. */
  lemma OnTrackNext(pts: seq<Vector>, cur: seq<Vector>, next: seq<Vector>, budget: int, run: Run, done: nat,
                    nextBudget: int, nextDone: nat)
    requires Shaped(pts, cur) && budget >= 1 && OnTrack(pts, cur, budget, run, done)
    requires next == Round(pts, cur) && Changes(cur, next) != 0
    requires nextBudget == budget - 1 && nextDone == done + 1
    ensures Shaped(pts, next) && OnTrack(pts, next, nextBudget, run, nextDone)
  {
  }

  /** Before the first iteration the fit is on track with the whole budget. */
  lemma OnTrackStart(pts: seq<Vector>, seeds: seq<Vector>, maxIter: int)
    requires Shaped(pts, seeds) && NoEmptyCluster(pts, seeds, maxIter)
    ensures OnTrack(pts, seeds, maxIter, Lloyd(pts, seeds, maxIter), 0)
  {
  }

  /** With no budget left, the fit has done exactly the rounds of Lloyd's iteration. */
  lemma OnTrackDone(pts: seq<Vector>, cur: seq<Vector>, budget: int, run: Run, done: nat)
    requires Shaped(pts, cur) && budget <= 0 && OnTrack(pts, cur, budget, run, done)
    ensures run == Run(cur, done)
  {
  }

  /** A table whose entries are the members' means of a round holds the centroids that round produces. */
  lemma MeansAreRound(m: array2<real>, pts: seq<Vector>, cents: seq<Vector>)
    requires Shaped(pts, cents) && NonEmpty(pts, cents)
    requires m.Length0 == |cents| && |cents[0]| <= m.Length1
    requires forall c, i :: 0 <= c < |cents| && 0 <= i < |cents[0]| ==>
      m[c, i] == MemberSum(pts, Assignment(pts, cents), c, i) / (Count(Assignment(pts, cents), c) as real)
    ensures Rows(m, |cents[0]|) == Round(pts, cents)
  {
    var r := Round(pts, cents);
    forall c, i | 0 <= c < |cents| && 0 <= i < |cents[0]|
      ensures m[c, i] == r[c][i]
    {
      RoundAt(pts, cents, c, i);
    }
    RowsAre(m, |cents[0]|, r);
  }
}
