# k-means fitting core, in Dafny

This project models the C core of a k-means extension module (`kmeans.c`).
The core is the Lloyd's-algorithm loop behind `fit`:

1. Seed K clusters from K chosen points.
2. Repeat, at most `maxIter` times:
   - shift each current centroid into the previous one and reset the sums and counters;
   - tag every point with its nearest previous centroid, adding the point into that cluster's sum and count;
   - divide every sum by its count;
   - count the coordinates that changed.
3. Stop early after the first round in which nothing changed.

There are two modules:

- `LloydMath` (`lloyd_math.dfy`) holds the mathematics on values.
  - A point or centroid is a `seq<real>`.
  - `SqDist` is the squared distance.
  - `Nearest` is the lowest-index nearest centroid.
  - `Assignment` gives the tag of every point.
  - `Count` and `MemberSum` give cluster sizes and coordinate sums.
  - `Round` is one full round, and `Changes` is the change count.
  - `Lloyd` is a whole run: its final centroids and the number of rounds it performed.
  - The lemmas state what the C loop promises about these.
- `KMeans` (`kmeans.dfy`) is the imperative model, with the same buffers the C code mutates.
  - The point store is an N x (D+1) `array2<real>`. The last column is the cluster tag, as in the flat matrix the module builds.
  - `Clusters` holds K rows of previous centroid, K rows of current centroid and K counters, as three parallel arrays.
  - The four functions that mutate state, `initClusters`, `initCurrCentroidAndCounter`, `assignVectorsToClusters` and `recalcCentroids`, are methods that update these arrays in place.
  - `vectorsNorm` and `findMyCluster` change nothing. They are methods that compute a value from the arrays.
  - Each method is proved against `LloydMath`.
  - In `recalcCentroids` the struct copy shares its pointers, so the division updates the cluster's own current centroid. `RecalcCentroids` divides `currCentroid` in place accordingly.
  - `Fit` is proved to return exactly `Lloyd(points, seeds, maxIter).centroids`. It performs `Lloyd(...).rounds` rounds.

A single-cluster fit is sometimes described as converging in exactly one iteration. The code as written does something different:

- The first round moves the seed to the mean and counts the moved coordinates.
- So a second round runs and finds no change.
- A single round happens only when the seed already is the mean.

The model follows the code. `LloydMath.OneClusterSettles` states the resulting round count.

## Model

| member | source | states |
|---|---|---|
| KMeans.VectorsNorm | kmeans.c:175-182 | the returned norm is the sum over the first D coordinates of the squared differences of the two rows (`SqDist`) |
| LloydMath.SqDistNonNegative | kmeans.c:175-182 | the squared distance is never negative |
| LloydMath.SqDistZeroIff | kmeans.c:175-182 | the squared distance is zero exactly when the two vectors agree on every coordinate |
| KMeans.Clusters.constructor | kmeans.c:153-173 | K clusters of dimension D on fresh buffers; current centroid c is coordinates 0..D-1 of point `firstCentralIndexes[c]` (all indices in range); every counter is 0 |
| KMeans.Clusters.FindMyCluster | kmeans.c:184-198 | the result is a cluster index below K and is the lowest-index nearest previous centroid of point p (`Nearest`) |
| KMeans.Clusters.Closest | kmeans.c:188-197 | the scan from cluster 0 that moves only on a strictly smaller norm ends on `Nearest(v, cents)` |
| LloydMath.NearestIsFirstMinimum | kmeans.c:188-196 | the chosen cluster is at distance no greater than every cluster's, and every lower-index cluster is strictly farther (ties go to the lowest index) |
| LloydMath.NearestAmongIsFirstMinimum | kmeans.c:190-196 | after scanning clusters 0..j-1 the current choice is the first minimum among them |
| KMeans.Clusters.AssignVectorsToClusters | kmeans.c:200-212 | coordinates 0..D-1 of every point are unchanged; tag column p is `Assignment(points, previous centroids)[p]`; counter c grows by the number of points tagged c; sum (c, i) grows by coordinate i summed over those points; the counters' total grows by exactly N; previous centroids are untouched (frame) |
| KMeans.Clusters.TagAll | kmeans.c:203-211 | the pass over the points leaves tags[q] = `Nearest(pts[q], cents)` in every tag slot, coordinates intact, and counters and sums grown by `Count` and `MemberSum` of those tags |
| KMeans.Clusters.AssignPoint | kmeans.c:204-210 | point j is tagged with its nearest cluster, which alone gains the point's coordinates and one count; nothing else changes |
| KMeans.Clusters.AddToSum | kmeans.c:207-209 | only the row of cluster myCluster changes, by the coordinates of point j |
| LloydMath.AssignmentAt | kmeans.c:203-206 | every point's tag is its nearest centroid, and every tag names one of the K clusters |
| LloydMath.AssignmentOfNearest | kmeans.c:203-206 | a tag list that gives every point its nearest centroid is the assignment |
| LloydMath.CountsCoverAll | kmeans.c:210 | when every tag names one of K clusters, the K cluster sizes add up to the number of points |
| LloydMath.EveryPointCounted | kmeans.c:203-211 | adding one pass's cluster sizes to a counter table raises its total by exactly N: each point is counted in exactly one cluster |
| KMeans.Clusters.InitCurrCentroidAndCounter | kmeans.c:227-236 | every previous centroid becomes the old current centroid; every current centroid becomes all zeros; every counter becomes 0 |
| KMeans.Clusters.RecalcCentroids | kmeans.c:214-225 | requires every counter non-zero; each current coordinate becomes its old value divided by its counter; the result is the number of (cluster, coordinate) pairs where previous and new differ, which lies in [0, K*D] |
| KMeans.Clusters.DivideRows | kmeans.c:217-223 | cluster by cluster, the quotients are written in place and the differences from the previous centroids are counted |
| KMeans.Clusters.RecalcRow | kmeans.c:219-222 | one cluster's row is divided by its counter, other rows unchanged; the result counts that row's coordinates that differ from the previous centroid |
| LloydMath.ChangesBounds | kmeans.c:214-225 | the change count is at most K*D and is zero exactly when the previous and new tables are equal |
| LloydMath.RoundAt | kmeans.c:220 | in a round without empty clusters, coordinate i of new centroid c is the sum of coordinate i over its members divided by their number |
| KMeans.MeansAreRound | kmeans.c:35-37 | a table holding every cluster's member means is the centroid table of the next round |
| KMeans.Clusters.Iteration | kmeans.c:35-37 | shift/reset, assignment and mean update together turn the current centroids into `Round(points, current)` and return the change count between the two. The previous centroids become the old current ones, and counter c becomes the size of cluster c. Every point's tag slot holds its cluster in `Assignment(points, old current)`, and its coordinates are unchanged (`LastRound`) |
| KMeans.Clusters.Step | kmeans.c:35-40 | one iteration while on track with Lloyd's iteration: a zero change count means the run is complete after this round; any other count leaves the fit on track with one round less to go; the state left is that of `LastRound` |
| KMeans.Clusters.Loop | kmeans.c:34-41 | starting on track with Lloyd's iteration, the loop ends with the current centroids and round count of `Lloyd(points, seeds, maxIter)`; after at least one round, the previous centroids, counters and tag column are those its last round left (`LastRound`) |
| KMeans.Fit | kmeans.c:24-41 | the returned centroids and round count are those of `Lloyd(points, Seeds(points, firstCentralIndexes), maxIter)`; with `maxIter <= 0` the seeds are returned; point coordinates are unchanged |
| LloydMath.LloydRoundsBounded | kmeans.c:34 | a run performs no round when maxIter <= 0, and otherwise between 1 and maxIter rounds |
| LloydMath.LloydIsIterate | kmeans.c:34-41 | a run's centroids are those of the unstopped iteration after as many rounds as it performed |
| LloydMath.LloydEarlierRoundsChange | kmeans.c:38-40 | every round before a run's last one changed at least one coordinate |
| LloydMath.LloydStopsOnQuietRound | kmeans.c:38-40 | a run that stops before maxIter stops right after a round whose change count is 0 |
| LloydMath.EarlyStopIsFixedPoint | kmeans.c:34-41 | the centroids of a run that stops early are a fixed point of a round |
| LloydMath.IterateStep | kmeans.c:34-41 | round t of the unstopped iteration applies `Round` to the centroids after t - 1 rounds, and its change count compares those two tables |
| LloydMath.ConvergedRunIsFixedPoint | kmeans.c:34-41 | a run whose last round changed nothing ends on a fixed point of a round, including a run whose quiet round is its last budgeted one |
| LloydMath.FixedPointStopsAtOnce | kmeans.c:34-41 | seeding with a fixed point gives back the same centroids after exactly one round |
| LloydMath.OneClusterTakesAll | kmeans.c:188-197 | with K = 1 every point is tagged 0 and the cluster's size is N |
| LloydMath.OneClusterSettles | kmeans.c:34-41 | with K = 1, N >= 1 and maxIter >= 2, a run ends on the mean of all points after 2 rounds, or after 1 when the seed already is that mean |
| LloydMath.TwoClusterScenario | kmeans.c:34-41 | a concrete run. The points are 1, 2, 9 and 10 in one dimension, seeded with points 0 and 2, with maxIter = 10. No round leaves a cluster empty, so `Fit`'s precondition holds. The run ends on 1.5 and 9.5 after 2 rounds |
| LloydMath.ScenarioRound | kmeans.c:200-225 | from either the seeds or the final centroids of that scenario, one round splits the points into {1, 2} and {9, 10}, leaves no cluster empty and yields 1.5 and 9.5 |

## Left out

- Python glue is not modelled: `fit_connect`, the list parsing in `initVectorsArray`, `buildPyListCentroids` and the module tables. These are calls into the CPython runtime. `Fit` returns its centroids as a sequence instead of a Python list.
- Memory management is not modelled: `malloc`/`free`, the `NULL` returns on allocation failure and `freeMemoryVectorsClusters`. These are resource plumbing with no behaviour to state.
- Coordinates are reals, not IEEE doubles. Rounding, and whether the exact-equality change test terminates under rounding, are not modelled.
- RecalcCentroids: a zero counter is excluded by a precondition. An empty cluster's sum is 0.0, so in C the division yields NaN (0.0 / 0), which the model does not represent. `Fit` requires `NoEmptyCluster`: no round that the run performs leaves a cluster empty. The value `Quotient` gives an empty cluster is never reached under that requirement.
- KMeans.Clusters.constructor: says nothing about the previous centroids, whose contents `initClusters` leaves uninitialised.
- K >= 1 is a precondition, because `findMyCluster` reads cluster 0 unconditionally.
- N is the number of rows of the point table rather than a separate `numOfVectors` argument.
- The tag slot holds the cluster index converted to a real, as the C code stores it into a double.
- `int` counters and change counts are unbounded, so overflow beyond `INT_MAX` points is not modelled.
- KMeans.Fit: the round count is a ghost result; the C function does not return it.
- KMeans.Fit: does not state the tag column it leaves in the point table. `fit` frees that table before returning (kmeans.c:44). `Clusters.Loop` states it.
- The Python driver (argument checks, CSV reading, k-means++ seeding with random choice), the plotting script, the test driver and the build script are not part of this model.
