/**
 * One k-means step as map and reduce (mr_kMeansIterate.py), over exact reals and with squared distances, which
 * order points as distances do.
 *
 * Mappers add up the points nearest to each centroid, the reducer divides. The step computes the exact mean of
 * every cluster however the points are dealt out to mappers, and it never increases the total squared distance
 * from points to their nearest centroids.
 */
module KMeans {
  import opened Bytes

  type Point = seq<real>

  // -------------------------------------------------------------------------------------------
  // Vectors
  // -------------------------------------------------------------------------------------------

  /** dist, without the root. */
  function Distance(x: Point, y: Point): (d: real)
    requires |x| == |y|
    ensures d >= 0.0
  {
    if x == [] then 0.0 else (x[0] - y[0]) * (x[0] - y[0]) + Distance(x[1..], y[1..])
  }

  function Plus(x: Point, y: Point): (s: Point)
    requires |x| == |y|
    ensures |s| == |x| && forall i :: 0 <= i < |x| ==> s[i] == x[i] + y[i]
  {
    seq(|x|, i requires 0 <= i < |x| => x[i] + y[i])
  }

  function Zero(n: nat): (z: Point)
    ensures |z| == n && forall i :: 0 <= i < n ==> z[i] == 0.0
  {
    seq(n, i requires 0 <= i < n => 0.0)
  }

  function Dot(x: Point, y: Point): real
    requires |x| == |y|
  {
    if x == [] then 0.0 else x[0] * y[0] + Dot(x[1..], y[1..])
  }

  function Minus(x: Point, y: Point): (s: Point)
    requires |x| == |y|
    ensures |s| == |x| && forall i :: 0 <= i < |x| ==> s[i] == x[i] - y[i]
  {
    seq(|x|, i requires 0 <= i < |x| => x[i] - y[i])
  }

  /** The loop of dist. */
  method SquaredDistance(x: Point, y: Point) returns (sum: real)
    requires |x| == |y|
    ensures sum == Distance(x, y)
  {
    sum := 0.0;
    var i := 0;
    while i < |x|
      invariant i <= |x| && sum + Distance(x[i..], y[i..]) == Distance(x, y)
    {
      assert x[i..][1..] == x[i + 1..] && y[i..][1..] == y[i + 1..];
      var temp := x[i] - y[i];
      sum := sum + temp * temp;
      i := i + 1;
    }
  }

  lemma {:induction false} DotPlus(x: Point, y: Point, w: Point)
    requires |x| == |y| == |w|
    ensures Dot(Plus(x, y), w) == Dot(x, w) + Dot(y, w)
    decreases |x|
  {
    if x != [] {
      assert Plus(x, y)[1..] == Plus(x[1..], y[1..]);
      DotPlus(x[1..], y[1..], w[1..]);
      assert (x[0] + y[0]) * w[0] == x[0] * w[0] + y[0] * w[0];
    }
  }

  lemma {:induction false} DotScaled(s: Point, m: Point, n: real, w: Point)
    requires |s| == |m| == |w| && forall i :: 0 <= i < |s| ==> s[i] == n * m[i]
    ensures Dot(s, w) == n * Dot(m, w)
    decreases |s|
  {
    if s != [] {
      DotScaled(s[1..], m[1..], n, w[1..]);
      Distribute(n, m[0], w[0], Dot(m[1..], w[1..]));
    }
  }

  lemma Distribute(n: real, a: real, b: real, c: real)
    ensures (n * a) * b + n * c == n * (a * b + c)
  {
  }

  lemma {:induction false} DotZero(n: nat, w: Point)
    requires |w| == n
    ensures Dot(Zero(n), w) == 0.0
    decreases n
  {
    if n > 0 {
      assert Zero(n)[1..] == Zero(n - 1);
      DotZero(n - 1, w[1..]);
    }
  }

  /** Moving the reference point from `c` to `m` changes a squared distance by an amount linear in the point. */
  lemma {:induction false} Shift(x: Point, c: Point, m: Point)
    requires |x| == |c| == |m|
    ensures Distance(x, c) ==
            Distance(x, m) + Distance(c, m) + 2.0 * Dot(m, Minus(c, m)) - 2.0 * Dot(x, Minus(c, m))
    decreases |x|
  {
    if x != [] {
      assert Minus(c, m)[1..] == Minus(c[1..], m[1..]);
      Shift(x[1..], c[1..], m[1..]);
      ShiftOne(x[0], c[0], m[0]);
    }
  }

  lemma ShiftOne(x: real, c: real, m: real)
    ensures (x - c) * (x - c) == (x - m) * (x - m) + (c - m) * (c - m) + 2.0 * (m * (c - m)) - 2.0 * (x * (c - m))
  {
  }

  // -------------------------------------------------------------------------------------------
  // Clusters
  // -------------------------------------------------------------------------------------------

  /** Points and centroids of one dimension. */
  predicate Flat(points: seq<Point>, dim: nat) {
    forall i :: 0 <= i < |points| ==> |points[i]| == dim
  }

  /** The first of the centroids up to `k` that no other of them beats. */
  function NearestOf(x: Point, cents: seq<Point>, k: nat): (a: nat)
    requires k < |cents| && Flat(cents, |x|)
    ensures a <= k && forall i :: 0 <= i <= k ==> Distance(x, cents[a]) <= Distance(x, cents[i])
  {
    if k == 0 then 0
    else
      var a := NearestOf(x, cents, k - 1);
      if Distance(x, cents[k]) < Distance(x, cents[a]) then k else a
  }

  function Nearest(x: Point, cents: seq<Point>): (a: nat)
    requires cents != [] && Flat(cents, |x|)
    ensures a < |cents| && forall i :: 0 <= i < |cents| ==> Distance(x, cents[a]) <= Distance(x, cents[i])
  {
    NearestOf(x, cents, |cents| - 1)
  }

  /** Points and centroids fit together. */
  predicate Fit(points: seq<Point>, cents: seq<Point>, dim: nat) {
    cents != [] && Flat(points, dim) && Flat(cents, dim)
  }

  function Count(points: seq<Point>, cents: seq<Point>, dim: nat, k: nat): nat
    requires Fit(points, cents, dim)
  {
    if points == [] then 0
    else
      var n := |points| - 1;
      Count(points[..n], cents, dim, k) + if Nearest(points[n], cents) == k then 1 else 0
  }

  function Sum(points: seq<Point>, cents: seq<Point>, dim: nat, k: nat): (s: Point)
    requires Fit(points, cents, dim)
    ensures |s| == dim
  {
    if points == [] then Zero(dim)
    else
      var n := |points| - 1;
      var s := Sum(points[..n], cents, dim, k);
      if Nearest(points[n], cents) == k then Plus(s, points[n]) else s
  }

  /** Total squared distance to the nearest centroids. */
  function Cost(points: seq<Point>, cents: seq<Point>, dim: nat): real
    requires Fit(points, cents, dim)
  {
    if points == [] then 0.0
    else
      var n := |points| - 1;
      Cost(points[..n], cents, dim) + Distance(points[n], cents[Nearest(points[n], cents)])
  }

  /** Total squared distance of the points of cluster `k` to `c`. */
  function ClusterCost(points: seq<Point>, cents: seq<Point>, dim: nat, k: nat, c: Point): real
    requires Fit(points, cents, dim) && |c| == dim
  {
    if points == [] then 0.0
    else
      var n := |points| - 1;
      ClusterCost(points[..n], cents, dim, k, c)
      + if Nearest(points[n], cents) == k then Distance(points[n], c) else 0.0
  }

  /** The sum of the costs of the first `k` clusters, each to its own target. */
  function TotalCost(points: seq<Point>, cents: seq<Point>, dim: nat, targets: seq<Point>, k: nat): real
    requires Fit(points, cents, dim) && Flat(targets, dim) && k <= |targets|
  {
    if k == 0 then 0.0
    else TotalCost(points, cents, dim, targets, k - 1) + ClusterCost(points, cents, dim, k - 1, targets[k - 1])
  }

  // -------------------------------------------------------------------------------------------
  // Descent
  // -------------------------------------------------------------------------------------------

  predicate IsMean(m: Point, sum: Point, n: nat) {
    |m| == |sum| && forall i :: 0 <= i < |m| ==> sum[i] == n as real * m[i]
  }

  lemma {:induction false} ClusterShift(points: seq<Point>, cents: seq<Point>, dim: nat, k: nat, c: Point, m: Point)
    requires Fit(points, cents, dim) && |c| == |m| == dim
    ensures var w := Minus(c, m);
      ClusterCost(points, cents, dim, k, c) ==
      ClusterCost(points, cents, dim, k, m) + Times(Count(points, cents, dim, k), Distance(c, m) + 2.0 * Dot(m, w))
      - 2.0 * Dot(Sum(points, cents, dim, k), w)
    decreases |points|
  {
    hide Distance, Dot, Minus, Plus, Nearest, Times, Zero;
    var w := Minus(c, m);
    if points == [] {
      DotZero(dim, w);
      NoneTimes(Distance(c, m) + 2.0 * Dot(m, w));
    } else {
      var n := |points| - 1;
      var x := points[n];
      ClusterShift(points[..n], cents, dim, k, c, m);
      if Nearest(x, cents) == k {
        Shift(x, c, m);
        DotPlus(Sum(points[..n], cents, dim, k), x, w);
        OneMore(Count(points[..n], cents, dim, k), Distance(c, m) + 2.0 * Dot(m, w));
      }
    }
  }

  function Times(n: nat, a: real): real {
    n as real * a
  }

  lemma NoneTimes(a: real)
    ensures Times(0, a) == 0.0
  {
  }

  lemma OneMore(n: nat, a: real)
    ensures Times(n + 1, a) == Times(n, a) + a
  {
  }

  /** No point is closer to a cluster, in total, than its mean. */
  lemma MeanIsBest(points: seq<Point>, cents: seq<Point>, dim: nat, k: nat, c: Point, m: Point)
    requires Fit(points, cents, dim) && |c| == |m| == dim
    requires IsMean(m, Sum(points, cents, dim, k), Count(points, cents, dim, k))
    ensures ClusterCost(points, cents, dim, k, c) ==
            ClusterCost(points, cents, dim, k, m) + Count(points, cents, dim, k) as real * Distance(c, m)
    ensures ClusterCost(points, cents, dim, k, m) <= ClusterCost(points, cents, dim, k, c)
  {
    hide Distance, Dot, Minus, Sum, Count, ClusterCost, Times;
    var n := Count(points, cents, dim, k);
    var w := Minus(c, m);
    ClusterShift(points, cents, dim, k, c, m);
    DotScaled(Sum(points, cents, dim, k), m, n as real, w);
    Collect(n, Distance(c, m), Dot(m, w));
  }

  lemma Collect(n: nat, d: real, t: real)
    requires d >= 0.0
    ensures Times(n, d + 2.0 * t) - 2.0 * (n as real * t) == Times(n, d) == n as real * d && Times(n, d) >= 0.0
  {
  }

  /** Every point is in one cluster: the clusters' costs add up to the cost of all points. */
  lemma {:induction false} ClustersAddUp(points: seq<Point>, cents: seq<Point>, dim: nat)
    requires Fit(points, cents, dim)
    ensures Cost(points, cents, dim) == TotalCost(points, cents, dim, cents, |cents|)
    decreases |points|
  {
    if points == [] {
      NoPointsNoCost(cents, dim, cents, |cents|);
    } else {
      var n := |points| - 1;
      ClustersAddUp(points[..n], cents, dim);
      OneMorePoint(points, cents, dim, cents, |cents|);
    }
  }

  lemma {:induction false} NoPointsNoCost(cents: seq<Point>, dim: nat, targets: seq<Point>, k: nat)
    requires Fit([], cents, dim) && Flat(targets, dim) && k <= |targets|
    ensures TotalCost([], cents, dim, targets, k) == 0.0
    decreases k
  {
    if k > 0 {
      NoPointsNoCost(cents, dim, targets, k - 1);
    }
  }

  lemma {:induction false} OneMorePoint(points: seq<Point>, cents: seq<Point>, dim: nat, targets: seq<Point>, k: nat)
    requires Fit(points, cents, dim) && Flat(targets, dim) && k <= |targets| && points != []
    ensures var n := |points| - 1;
      var a := Nearest(points[n], cents);
      TotalCost(points, cents, dim, targets, k) ==
      TotalCost(points[..n], cents, dim, targets, k) + if a < k then Distance(points[n], targets[a]) else 0.0
    decreases k
  {
    if k > 0 {
      OneMorePoint(points, cents, dim, targets, k - 1);
    }
  }

  /** Nearest targets cost at most what the old assignment costs. */
  lemma {:induction false} ReassignmentHelps(points: seq<Point>, cents: seq<Point>, dim: nat, targets: seq<Point>)
    requires Fit(points, cents, dim) && Fit(points, targets, dim) && |targets| == |cents|
    ensures Cost(points, targets, dim) <= TotalCost(points, cents, dim, targets, |cents|)
    decreases |points|
  {
    if points == [] {
      NoPointsNoCost(cents, dim, targets, |cents|);
    } else {
      ReassignmentHelps(points[..|points| - 1], cents, dim, targets);
      OneMorePoint(points, cents, dim, targets, |cents|);
    }
  }

  lemma {:induction false} MeansHelp(points: seq<Point>, cents: seq<Point>, dim: nat, means: seq<Point>, k: nat)
    requires Fit(points, cents, dim) && Flat(means, dim) && |means| == |cents| && k <= |cents|
    requires forall i :: 0 <= i < |cents| ==> IsMean(means[i], Sum(points, cents, dim, i), Count(points, cents, dim, i))
    ensures TotalCost(points, cents, dim, means, k) <= TotalCost(points, cents, dim, cents, k)
    decreases k
  {
    if k > 0 {
      MeansHelp(points, cents, dim, means, k - 1);
      MeanIsBest(points, cents, dim, k - 1, cents[k - 1], means[k - 1]);
    }
  }

  /** The step never increases the cost. */
  lemma Descent(points: seq<Point>, cents: seq<Point>, dim: nat, means: seq<Point>)
    requires Fit(points, cents, dim) && Flat(means, dim) && |means| == |cents|
    requires forall i :: 0 <= i < |cents| ==> IsMean(means[i], Sum(points, cents, dim, i), Count(points, cents, dim, i))
    ensures Cost(points, means, dim) <= Cost(points, cents, dim)
  {
    ClustersAddUp(points, cents, dim);
    MeansHelp(points, cents, dim, means, |cents|);
    ReassignmentHelps(points, cents, dim, means);
  }

  // -------------------------------------------------------------------------------------------
  // Dealing out the points
  // -------------------------------------------------------------------------------------------

  lemma PlusAssociates(x: Point, y: Point, z: Point)
    requires |x| == |y| == |z|
    ensures Plus(Plus(x, y), z) == Plus(x, Plus(y, z)) && Plus(x, y) == Plus(y, x)
  {
  }

  lemma {:induction false} Joined(a: seq<Point>, b: seq<Point>, cents: seq<Point>, dim: nat, k: nat)
    requires Fit(a, cents, dim) && Fit(b, cents, dim)
    ensures Fit(a + b, cents, dim)
    ensures Sum(a + b, cents, dim, k) == Plus(Sum(a, cents, dim, k), Sum(b, cents, dim, k))
    ensures Count(a + b, cents, dim, k) == Count(a, cents, dim, k) + Count(b, cents, dim, k)
    decreases |b|
  {
    hide Nearest, Plus, Zero;
    if b == [] {
      assert a + b == a;
      assert Plus(Sum(a, cents, dim, k), Zero(dim)) == Sum(a, cents, dim, k);
    } else {
      var n := |b| - 1;
      Joined(a, b[..n], cents, dim, k);
      assert (a + b)[..|a + b| - 1] == a + b[..n];
      PlusAssociates(Sum(a, cents, dim, k), Sum(b[..n], cents, dim, k), b[n]);
    }
  }

  function Concat(splits: seq<seq<Point>>): (points: seq<Point>)
  {
    if splits == [] then [] else Concat(splits[..|splits| - 1]) + splits[|splits| - 1]
  }

  /** The order of the points does not matter: a point can be taken from anywhere. */
  lemma {:induction false} TakeOut(points: seq<Point>, i: nat, cents: seq<Point>, dim: nat, k: nat)
    requires Fit(points, cents, dim) && i < |points|
    ensures var rest := points[..i] + points[i + 1..];
      && Fit(rest, cents, dim)
      && Sum(points, cents, dim, k) == Sum(rest + [points[i]], cents, dim, k)
      && Count(points, cents, dim, k) == Count(rest + [points[i]], cents, dim, k)
  {
    var a, x, b := points[..i], [points[i]], points[i + 1..];
    Joined(a, x, cents, dim, k);
    Joined(a + x, b, cents, dim, k);
    Joined(a, b, cents, dim, k);
    Joined(a + b, x, cents, dim, k);
    assert points == a + x + b;
    hide Sum, Count, Plus;
    PlusAssociates(Sum(a, cents, dim, k), Sum(x, cents, dim, k), Sum(b, cents, dim, k));
    PlusAssociates(Sum(a, cents, dim, k), Sum(b, cents, dim, k), Sum(x, cents, dim, k));
    PlusAssociates(Sum(x, cents, dim, k), Sum(b, cents, dim, k), Sum(x, cents, dim, k));
  }

  /** The same points in another order, or dealt out otherwise, give the same sums and counts. */
  lemma {:induction false} SamePoints(p: seq<Point>, q: seq<Point>, cents: seq<Point>, dim: nat, k: nat)
    requires Fit(p, cents, dim) && multiset(p) == multiset(q)
    ensures Fit(q, cents, dim)
    ensures Sum(p, cents, dim, k) == Sum(q, cents, dim, k)
    ensures Count(p, cents, dim, k) == Count(q, cents, dim, k)
    decreases |p|
  {
    hide Sum, Count, Fit;
    SameFit(p, q, cents, dim);
    assert |p| == |multiset(p)| == |multiset(q)| == |q|;
    if p == [] {
      assert q == p;
    } else {
      var n := |p| - 1;
      var x := p[n];
      assert p == p[..n] + [x];
      assert x in multiset(q);
      var i :| 0 <= i < |q| && q[i] == x;
      var rest := q[..i] + q[i + 1..];
      RestOfBag(p, q, i);
      TakeOut(q, i, cents, dim, k);
      FitParts(p[..n], [x], cents, dim, p);
      SamePoints(p[..n], rest, cents, dim, k);
      FitParts(rest, [x], cents, dim, rest + [x]);
      Joined(p[..n], [x], cents, dim, k);
      Joined(rest, [x], cents, dim, k);
    }
  }

  lemma RestOfBag(p: seq<Point>, q: seq<Point>, i: nat)
    requires p != [] && multiset(p) == multiset(q) && i < |q| && q[i] == p[|p| - 1]
    ensures multiset(p[..|p| - 1]) == multiset(q[..i] + q[i + 1..])
  {
    var n := |p| - 1;
    assert p == p[..n] + [p[n]];
    assert q == q[..i] + [q[i]] + q[i + 1..];
    assert multiset(p[..n]) == multiset(p) - multiset{p[n]};
    assert multiset(q[..i] + q[i + 1..]) == multiset(q) - multiset{p[n]};
  }

  lemma FitParts(a: seq<Point>, b: seq<Point>, cents: seq<Point>, dim: nat, all: seq<Point>)
    requires all == a + b && cents != []
    ensures Fit(all, cents, dim) <==> Fit(a, cents, dim) && Fit(b, cents, dim)
  {
    assert forall i :: 0 <= i < |b| ==> all[|a| + i] == b[i];
    assert forall i :: 0 <= i < |a| ==> all[i] == a[i];
  }

  lemma SameFit(p: seq<Point>, q: seq<Point>, cents: seq<Point>, dim: nat)
    requires Fit(p, cents, dim) && multiset(p) == multiset(q)
    ensures Fit(q, cents, dim)
  {
    forall i | 0 <= i < |q| ensures |q[i]| == dim {
      assert q[i] in multiset(q) && q[i] in multiset(p);
    }
  }

  // -------------------------------------------------------------------------------------------
  // Mappers and the reducer
  // -------------------------------------------------------------------------------------------

  /** What a mapper emits: sums and counts, one per cluster, or nothing if it got no points. */
  datatype Tally = Tally(sums: seq<Point>, counts: seq<nat>)

  predicate Tallies(t: Tally, points: seq<Point>, cents: seq<Point>, dim: nat)
    requires Fit(points, cents, dim)
  {
    && |t.sums| == |t.counts| == |cents|
    && forall k :: 0 <= k < |cents| ==>
         t.sums[k] == Sum(points, cents, dim, k) && t.counts[k] == Count(points, cents, dim, k)
  }

  predicate Emits(t: Tally, points: seq<Point>, cents: seq<Point>, dim: nat)
    requires Fit(points, cents, dim)
  {
    if points == [] then t == Tally([], []) else Tallies(t, points, cents, dim)
  }

  method FindNearest(x: Point, cents: seq<Point>) returns (index: nat)
    requires cents != [] && Flat(cents, |x|)
    ensures index == Nearest(x, cents)
  {
    hide Distance;
    var dist1 := SquaredDistance(x, cents[0]);
    index := 0;
    for i := 1 to |cents|
      invariant index == NearestOf(x, cents, i - 1) && dist1 == Distance(x, cents[index])
    {
      var dist2 := SquaredDistance(x, cents[i]);
      if dist2 < dist1 {
        index := i;
        dist1 := dist2;
      }
    }
  }

  lemma OnePoint(t: Tally, seen: seq<Point>, x: Point, cents: seq<Point>, dim: nat)
    requires Fit(seen, cents, dim) && |x| == dim && Tallies(t, seen, cents, dim)
    ensures Fit(seen + [x], cents, dim)
    ensures var a := Nearest(x, cents);
      && |t.sums[a]| == dim
      && Tallies(Tally(t.sums[a := Plus(t.sums[a], x)], t.counts[a := t.counts[a] + 1]), seen + [x], cents, dim)
  {
    hide Nearest, Plus;
    assert (seen + [x])[..|seen|] == seen;
  }

  class Mapper {
    const centroids: seq<Point>
    ghost const dim: nat
    var count: nat
    var newCentroid: seq<Point>
    var count2: seq<nat>
    ghost var seen: seq<Point>

    ghost predicate Valid()
      reads this
    {
      && Fit(seen, centroids, dim)
      && (count == 0 <==> seen == [])
      && Emits(Tally(newCentroid, count2), seen, centroids, dim)
    }

    constructor (centroids: seq<Point>, ghost dim: nat)
      requires centroids != [] && Flat(centroids, dim)
      ensures Valid() && seen == [] && this.centroids == centroids && this.dim == dim
    {
      this.centroids, this.dim := centroids, dim;
      count, newCentroid, count2, seen := 0, [], [], [];
    }

    /** mapper: one point. */
    method Map(x: Point)
      requires Valid() && |x| == dim
      modifies this
      ensures Valid() && seen == old(seen) + [x]
    {
      hide Nearest, Plus;
      if count == 0 {
        count := 1;
        newCentroid := seq(|centroids|, _ => Zero(|x|));
        count2 := seq(|centroids|, _ => 0);
      }
      assert Tallies(Tally(newCentroid, count2), seen, centroids, dim);
      var index := FindNearest(x, centroids);
      OnePoint(Tally(newCentroid, count2), seen, x, centroids, dim);
      count2 := count2[index := count2[index] + 1];
      newCentroid := newCentroid[index := Plus(newCentroid[index], x)];
      seen := seen + [x];
    }

    /** mapper_final. */
    method Final() returns (t: Tally)
      requires Valid()
      ensures Emits(t, seen, centroids, dim)
    {
      t := Tally(newCentroid, count2);
    }
  }

  /** One mapper over its share of the points. */
  method MapAll(points: seq<Point>, cents: seq<Point>, ghost dim: nat) returns (t: Tally)
    requires Fit(points, cents, dim)
    ensures Emits(t, points, cents, dim)
  {
    var mapper := new Mapper(cents, dim);
    var i := 0;
    while i < |points|
      invariant i <= |points| && fresh(mapper) && mapper.Valid() && mapper.seen == points[..i]
      invariant mapper.centroids == cents && mapper.dim == dim
    {
      mapper.Map(points[i]);
      assert points[..i + 1] == points[..i] + [points[i]];
      i := i + 1;
    }
    assert points[..|points|] == points;
    t := mapper.Final();
  }

  /** An IndexError of a mapper's empty output, or a ZeroDivisionError. */
  datatype Mishap = EmptyMapper | EmptyCluster

  function Divided(x: Point, alpha: nat): (d: Point)
    requires alpha > 0
    ensures IsMean(d, x, alpha)
  {
    seq(|x|, i requires 0 <= i < |x| => x[i] / alpha as real)
  }

  function Added(t: Tally, u: Tally): (r: Tally)
    requires |t.sums| == |t.counts| == |u.sums| == |u.counts|
    requires forall k :: 0 <= k < |t.sums| ==> |t.sums[k]| == |u.sums[k]|
    ensures |r.sums| == |r.counts| == |t.sums|
    ensures forall k :: 0 <= k < |t.sums| ==>
              r.sums[k] == Plus(t.sums[k], u.sums[k]) && r.counts[k] == t.counts[k] + u.counts[k]
  {
    Tally(seq(|t.sums|, k requires 0 <= k < |t.sums| => Plus(t.sums[k], u.sums[k])),
          seq(|t.sums|, k requires 0 <= k < |t.sums| => t.counts[k] + u.counts[k]))
  }

  /** The inner loop of the reducer. */
  method AddTally(t: Tally, u: Tally) returns (r: Tally)
    requires |t.sums| == |t.counts| == |u.sums| == |u.counts|
    requires forall k :: 0 <= k < |t.sums| ==> |t.sums[k]| == |u.sums[k]|
    ensures r == Added(t, u)
  {
    r := t;
    for k := 0 to |t.sums|
      invariant |r.sums| == |r.counts| == |t.sums|
      invariant forall i :: 0 <= i < k ==> r.sums[i] == Added(t, u).sums[i] && r.counts[i] == Added(t, u).counts[i]
      invariant forall i :: k <= i < |t.sums| ==> r.sums[i] == t.sums[i] && r.counts[i] == t.counts[i]
    {
      r := Tally(r.sums[k := Plus(r.sums[k], u.sums[k])], r.counts[k := r.counts[k] + u.counts[k]]);
    }
  }

  lemma AddedTallies(t: Tally, u: Tally, a: seq<Point>, b: seq<Point>, cents: seq<Point>, dim: nat)
    requires Fit(a, cents, dim) && Fit(b, cents, dim) && Tallies(t, a, cents, dim) && Tallies(u, b, cents, dim)
    ensures Fit(a + b, cents, dim) && Tallies(Added(t, u), a + b, cents, dim)
  {
    forall k | 0 <= k < |cents| {
      Joined(a, b, cents, dim, k);
    }
    hide Sum, Count, Plus;
  }

  /** The reducer's division. */
  method Divide(t: Tally, kMeans: nat) returns (r: Result<seq<Point>, Mishap>)
    requires |t.sums| == |t.counts| == kMeans
    requires forall k :: 0 <= k < kMeans ==> |t.sums[k]| > 0
    ensures r.Success? <==> forall k :: 0 <= k < kMeans ==> t.counts[k] > 0
    ensures r.Success? ==> |r.value| == kMeans && forall k :: 0 <= k < kMeans ==>
            IsMean(r.value[k], t.sums[k], t.counts[k])
  {
    var means: seq<Point> := [];
    for k := 0 to kMeans
      invariant |means| == k && forall i :: 0 <= i < k ==> t.counts[i] > 0 && IsMean(means[i], t.sums[i], t.counts[i])
    {
      if t.counts[k] == 0 {
        return Failure(EmptyCluster);
      }
      means := means + [Divided(t.sums[k], t.counts[k])];
    }
    return Success(means);
  }

  predicate AllEmit(outs: seq<Tally>, splits: seq<seq<Point>>, cents: seq<Point>, dim: nat) {
    && |outs| == |splits|
    && forall i :: 0 <= i < |splits| ==> Fit(splits[i], cents, dim) && Emits(outs[i], splits[i], cents, dim)
  }

  predicate NoMapperEmpty(splits: seq<seq<Point>>) {
    forall i :: 0 <= i < |splits| ==> splits[i] != []
  }

  predicate NoClusterEmpty(points: seq<Point>, cents: seq<Point>, dim: nat)
    requires Fit(points, cents, dim)
  {
    forall k :: 0 <= k < |cents| ==> Count(points, cents, dim, k) > 0
  }

  /** reducer: succeeds if and only if every mapper had a point and every cluster got one, and then gives the
      exact mean of every cluster. */
  method Reduce(outs: seq<Tally>, kMeans: nat, ghost splits: seq<seq<Point>>, ghost cents: seq<Point>, ghost dim: nat)
    returns (r: Result<seq<Point>, Mishap>)
    requires outs != [] && kMeans == |cents| > 0 && dim > 0 && AllEmit(outs, splits, cents, dim)
    ensures Fit(Concat(splits), cents, dim)
    ensures r.Success? <==> NoMapperEmpty(splits) && NoClusterEmpty(Concat(splits), cents, dim)
    ensures r.Success? ==> |r.value| == kMeans && forall k :: 0 <= k < kMeans ==>
              IsMean(r.value[k], Sum(Concat(splits), cents, dim, k), Count(Concat(splits), cents, dim, k))
  {
    hide Sum, Count, Added;
    assert Fit(splits[0], cents, dim);
    ConcatFits(splits, cents, dim);
    var total := outs[0];
    assert splits[..1] == [splits[0]] && Concat([]) == [] && Concat(splits[..1]) == splits[0];
    if |total.sums| < kMeans {
      assert splits[0] == [] && !NoMapperEmpty(splits);
      return Failure(EmptyMapper);
    }
    var i := 1;
    while i < |outs|
      invariant 1 <= i <= |outs| && Fit(Concat(splits[..i]), cents, dim)
                && Tallies(total, Concat(splits[..i]), cents, dim)
      invariant forall j :: 0 <= j < i ==> splits[j] != []
    {
      if |outs[i].sums| < kMeans {
        assert splits[i] == [] && !NoMapperEmpty(splits);
        return Failure(EmptyMapper);
      }
      assert splits[..i + 1][..i] == splits[..i];
      AddedTallies(total, outs[i], Concat(splits[..i]), splits[i], cents, dim);
      total := AddTally(total, outs[i]);
      i := i + 1;
    }
    assert splits[..|splits|] == splits;
    assert NoMapperEmpty(splits);
    assert NoClusterEmpty(Concat(splits), cents, dim) <==> forall k :: 0 <= k < kMeans ==> total.counts[k] > 0;
    r := Divide(total, kMeans);
  }

  lemma {:induction false} ConcatFits(splits: seq<seq<Point>>, cents: seq<Point>, dim: nat)
    requires cents != [] && Flat(cents, dim) && forall i :: 0 <= i < |splits| ==> Fit(splits[i], cents, dim)
    ensures Fit(Concat(splits), cents, dim)
    decreases |splits|
  {
    if splits != [] {
      ConcatFits(splits[..|splits| - 1], cents, dim);
    }
  }

  /** A whole step over any split of any arrangement of the points: it succeeds if and only if no mapper and no
      cluster is empty, gives the exact means of the clusters of `points`, and does not increase their cost. */
  method Iterate(ghost points: seq<Point>, splits: seq<seq<Point>>, cents: seq<Point>, ghost dim: nat)
    returns (r: Result<seq<Point>, Mishap>)
    requires Fit(points, cents, dim) && dim > 0 && splits != [] && multiset(Concat(splits)) == multiset(points)
    requires forall i :: 0 <= i < |splits| ==> Fit(splits[i], cents, dim)
    ensures r.Success? <==> NoMapperEmpty(splits) && NoClusterEmpty(points, cents, dim)
    ensures r.Success? ==> |r.value| == |cents| && forall k :: 0 <= k < |cents| ==>
              IsMean(r.value[k], Sum(points, cents, dim, k), Count(points, cents, dim, k))
    ensures r.Success? ==> Flat(r.value, dim) && Cost(points, r.value, dim) <= Cost(points, cents, dim)
  {
    hide Sum, Count, Concat, Cost, Emits;
    var outs: seq<Tally> := [];
    for i := 0 to |splits|
      invariant |outs| == i && forall j :: 0 <= j < i ==> Emits(outs[j], splits[j], cents, dim)
    {
      var t := MapAll(splits[i], cents, dim);
      outs := outs + [t];
    }
    r := Reduce(outs, |cents|, splits, cents, dim);
    forall k | 0 <= k < |cents|
      ensures Count(points, cents, dim, k) == Count(Concat(splits), cents, dim, k)
      ensures Sum(points, cents, dim, k) == Sum(Concat(splits), cents, dim, k)
    {
      SamePoints(points, Concat(splits), cents, dim, k);
    }
    if r.Success? {
      assert Flat(r.value, dim);
      Descent(points, cents, dim, r.value);
    }
  }
}
