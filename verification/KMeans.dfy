/** Lloyd's iteration as gpu_vector_ops.py runs it on the CPU, over reals. */
module KMeans {
  import opened Wrappers

  type Vector = seq<real>

  /** `math.sqrt`: all that matters of it here is that it is strictly increasing. */
  ghost predicate Increasing(root: real -> real) {
    forall x, y :: 0.0 <= x < y ==> root(x) < root(y)
  }

  function Square(x: real): (r: real)
    ensures r >= 0.0
  {
    x * x
  }

  /** The squared distance over the first n coordinates. */
  function Gap(a: Vector, b: Vector, n: nat): (r: real)
    requires n <= |a| && n <= |b|
    ensures r >= 0.0
  {
    if n == 0 then 0.0 else Gap(a, b, n - 1) + Square(a[n - 1] - b[n - 1])
  }

  /** `zip` stops at the shorter vector. */
  function SqDist(a: Vector, b: Vector): (r: real)
    ensures r >= 0.0
  {
    Gap(a, b, if |a| < |b| then |a| else |b|)
  }

  /** `distances.index(min(distances))`. */
  function FirstMin(distances: seq<real>): (i: nat)
    requires distances != []
    ensures i < |distances|
    ensures forall j :: 0 <= j < |distances| ==> distances[i] <= distances[j]
    ensures forall j :: 0 <= j < i ==> distances[i] < distances[j]
  {
    var n := |distances| - 1;
    if n == 0 then 0
    else
      var front := FirstMin(distances[..n]);
      assert forall j :: 0 <= j < n ==> distances[..n][j] == distances[j];
      if distances[n] < distances[front] then n else front
  }

  function Distances(v: Vector, centroids: seq<Vector>, root: real -> real): seq<real> {
    seq(|centroids|, i requires 0 <= i < |centroids| => root(SqDist(v, centroids[i])))
  }

  function Nearest(v: Vector, centroids: seq<Vector>, root: real -> real): (i: nat)
    requires centroids != []
    ensures i < |centroids|
  {
    FirstMin(Distances(v, centroids, root))
  }

  function Assign(vectors: seq<Vector>, centroids: seq<Vector>, root: real -> real): (labels: seq<nat>)
    requires centroids != []
    ensures |labels| == |vectors| && forall j :: 0 <= j < |labels| ==> labels[j] < |centroids|
  {
    seq(|vectors|, j requires 0 <= j < |vectors| => Nearest(vectors[j], centroids, root))
  }

  /** The vectors labelled i, in order. */
  function Cluster(vectors: seq<Vector>, labels: seq<nat>, i: nat): (members: seq<Vector>)
    requires |vectors| == |labels|
    ensures forall v :: v in members ==> v in vectors
  {
    if vectors == [] then []
    else
      var n := |vectors| - 1;
      Cluster(vectors[..n], labels[..n], i) + (if labels[n] == i then [vectors[n]] else [])
  }

  function Sum(xs: seq<real>): real {
    if xs == [] then 0.0 else Sum(xs[..|xs| - 1]) + xs[|xs| - 1]
  }

  /** Every vector has the given dimension. */
  predicate Uniform(vectors: seq<Vector>, dim: nat) {
    forall v :: v in vectors ==> |v| == dim
  }

  function Column(vectors: seq<Vector>, dim: nat, d: nat): (column: seq<real>)
    requires Uniform(vectors, dim) && d < dim
    ensures |column| == |vectors|
  {
    seq(|vectors|, j requires 0 <= j < |vectors| => vectors[j][d])
  }

  function Mean(members: seq<Vector>, dim: nat): (mean: Vector)
    requires Uniform(members, dim) && members != []
    ensures |mean| == dim
  {
    seq(dim, d requires 0 <= d < dim => Sum(Column(members, dim, d)) / |members| as real)
  }

  /** An empty cluster keeps its centroid. */
  function NewCentroid(vectors: seq<Vector>, labels: seq<nat>, centroids: seq<Vector>, dim: nat, i: nat): (c: Vector)
    requires |vectors| == |labels| && Uniform(vectors, dim) && Uniform(centroids, dim) && i < |centroids|
    ensures |c| == dim
  {
    var members := Cluster(vectors, labels, i);
    if members != [] then Mean(members, dim) else centroids[i]
  }

  function Update(vectors: seq<Vector>, labels: seq<nat>, centroids: seq<Vector>, dim: nat): (updated: seq<Vector>)
    requires |vectors| == |labels| && Uniform(vectors, dim) && Uniform(centroids, dim)
    ensures |updated| == |centroids| && Uniform(updated, dim)
  {
    seq(|centroids|, i requires 0 <= i < |centroids| => NewCentroid(vectors, labels, centroids, dim, i))
  }

  /** Centroids and labels after n iterations. */
  function Lloyd(vectors: seq<Vector>, initial: seq<Vector>, dim: nat, n: nat,
                 root: real -> real): (r: (seq<Vector>, seq<nat>))
    requires Uniform(vectors, dim) && Uniform(initial, dim) && initial != []
    ensures |r.0| == |initial| && Uniform(r.0, dim)
    ensures |r.1| == |vectors| && forall j :: 0 <= j < |r.1| ==> r.1[j] < |initial|
  {
    if n == 0 then (initial, seq(|vectors|, _ => 0))
    else
      var (centroids, _) := Lloyd(vectors, initial, dim, n - 1, root);
      var labels := Assign(vectors, centroids, root);
      (Update(vectors, labels, centroids, dim), labels)
  }

  // ---- Total squared distance ----

  ghost predicate Fits(vectors: seq<Vector>, labels: seq<nat>, centroids: seq<Vector>, dim: nat) {
    && |labels| == |vectors| && Uniform(vectors, dim) && Uniform(centroids, dim)
    && forall j :: 0 <= j < |labels| ==> labels[j] < |centroids|
  }

  /** What k-means minimises. */
  function Cost(vectors: seq<Vector>, labels: seq<nat>, centroids: seq<Vector>, dim: nat): real
    requires Fits(vectors, labels, centroids, dim)
  {
    if vectors == [] then 0.0
    else
      var n := |vectors| - 1;
      Cost(vectors[..n], labels[..n], centroids, dim) + Gap(vectors[n], centroids[labels[n]], dim)
  }

  // ---- Assignment ----

  lemma NearestIsClosest(v: Vector, centroids: seq<Vector>, root: real -> real, i: nat)
    requires centroids != [] && Increasing(root) && i < |centroids|
    ensures var m := Nearest(v, centroids, root);
            && SqDist(v, centroids[m]) <= SqDist(v, centroids[i])
            && (i < m ==> SqDist(v, centroids[m]) < SqDist(v, centroids[i]))
  {
    var ds, m := Distances(v, centroids, root), Nearest(v, centroids, root);
    assert ds[m] == root(SqDist(v, centroids[m])) && ds[i] == root(SqDist(v, centroids[i]));
  }

  /** Nearest assignment costs least among all labellings. */
  lemma {:induction false} AssignmentIsBest(vectors: seq<Vector>, labels: seq<nat>, centroids: seq<Vector>,
                                            dim: nat, root: real -> real)
    requires Fits(vectors, labels, centroids, dim) && centroids != [] && Increasing(root)
    ensures Cost(vectors, Assign(vectors, centroids, root), centroids, dim) <= Cost(vectors, labels, centroids, dim)
    decreases |vectors|
  {
    hide Nearest, Gap, Increasing;
    if vectors != [] {
      var n := |vectors| - 1;
      AssignmentIsBest(vectors[..n], labels[..n], centroids, dim, root);
      var best := Assign(vectors, centroids, root);
      assert best[..n] == Assign(vectors[..n], centroids, root);
      NearestIsClosest(vectors[n], centroids, root, labels[n]);
      assert vectors[n] in vectors && centroids[best[n]] in centroids && centroids[labels[n]] in centroids;
    }
  }

  // ---- Mean update ----

  /** The squared deviations of one coordinate from c. */
  function Deviation(xs: seq<real>, c: real): real {
    if xs == [] then 0.0 else Deviation(xs[..|xs| - 1], c) + Square(xs[|xs| - 1] - c)
  }

  /** Deviations differ by a linear function of the sum. */
  function Shift(sum: real, n: real, c: real, m: real): real {
    2.0 * (m - c) * sum + n * (c * c - m * m)
  }

  lemma ShiftStep(sum: real, x: real, n: real, c: real, m: real)
    ensures Shift(sum, n, c, m) + (Square(x - c) - Square(x - m)) == Shift(sum + x, n + 1.0, c, m)
  {
  }

  lemma NoShift(c: real, m: real)
    ensures Shift(0.0, 0.0, c, m) == 0.0
  {
  }

  lemma {:induction false} DeviationShift(xs: seq<real>, c: real, m: real)
    ensures Deviation(xs, c) - Deviation(xs, m) == Shift(Sum(xs), |xs| as real, c, m)
    decreases |xs|
  {
    hide Shift, Square;
    if xs == [] {
      assert Deviation(xs, c) == 0.0 && Deviation(xs, m) == 0.0 && Sum(xs) == 0.0;
      NoShift(c, m);
    } else {
      var n := |xs| - 1;
      DeviationShift(xs[..n], c, m);
      ShiftStep(Sum(xs[..n]), xs[n], n as real, c, m);
    }
  }

  lemma AtMean(n: real, m: real, c: real)
    requires n > 0.0
    ensures Shift(n * m, n, c, m) >= 0.0
  {
    assert 2.0 * (m - c) * (n * m) + n * (c * c - m * m) == n * ((m - c) * (m - c));
    assert (m - c) * (m - c) >= 0.0;
  }

  lemma MeanDeviatesLeast(xs: seq<real>, c: real)
    requires xs != []
    ensures Deviation(xs, Sum(xs) / |xs| as real) <= Deviation(xs, c)
  {
    hide Deviation, Sum, Shift;
    var n, m := |xs| as real, Sum(xs) / |xs| as real;
    DeviationShift(xs, c, m);
    assert Sum(xs) == n * m;
    AtMean(n, m, c);
  }

  /** The squared distances of a cluster's members from c, over the first n coordinates. */
  function Spread(members: seq<Vector>, c: Vector, dim: nat, n: nat): real
    requires Uniform(members, dim) && |c| == dim && n <= dim
  {
    if members == [] then 0.0
    else
      var last := |members| - 1;
      Spread(members[..last], c, dim, n) + Gap(members[last], c, n)
  }

  /** Summing over members first or over coordinates first is the same. */
  lemma {:induction false} SpreadByColumn(members: seq<Vector>, c: Vector, dim: nat, n: nat)
    requires Uniform(members, dim) && |c| == dim && 0 < n <= dim
    ensures Spread(members, c, dim, n) == Spread(members, c, dim, n - 1)
            + Deviation(Column(members, dim, n - 1), c[n - 1])
    decreases |members|
  {
    if members != [] {
      var last := |members| - 1;
      SpreadByColumn(members[..last], c, dim, n);
      assert Column(members, dim, n - 1)[..last] == Column(members[..last], dim, n - 1);
    }
  }

  lemma {:induction false} NoCoordinates(members: seq<Vector>, c: Vector, dim: nat)
    requires Uniform(members, dim) && |c| == dim
    ensures Spread(members, c, dim, 0) == 0.0
    decreases |members|
  {
    if members != [] {
      NoCoordinates(members[..|members| - 1], c, dim);
    }
  }

  lemma {:induction false} MeanSpreadsLeast(members: seq<Vector>, c: Vector, dim: nat, n: nat)
    requires Uniform(members, dim) && members != [] && |c| == dim && n <= dim
    ensures Spread(members, Mean(members, dim), dim, n) <= Spread(members, c, dim, n)
    decreases n
  {
    var mean := Mean(members, dim);
    if n == 0 {
      NoCoordinates(members, mean, dim);
      NoCoordinates(members, c, dim);
    } else {
      MeanSpreadsLeast(members, c, dim, n - 1);
      SpreadByColumn(members, mean, dim, n);
      SpreadByColumn(members, c, dim, n);
      MeanDeviatesLeast(Column(members, dim, n - 1), c[n - 1]);
    }
  }

  /** The spreads of clusters 0..k. */
  function ClusterCosts(vectors: seq<Vector>, labels: seq<nat>, centroids: seq<Vector>, dim: nat, k: nat): real
    requires Fits(vectors, labels, centroids, dim) && k <= |centroids|
  {
    if k == 0 then 0.0
    else ClusterCosts(vectors, labels, centroids, dim, k - 1)
         + Spread(Cluster(vectors, labels, k - 1), centroids[k - 1], dim, dim)
  }

  lemma SpreadSnoc(members: seq<Vector>, v: Vector, c: Vector, dim: nat)
    requires Uniform(members, dim) && |v| == dim && |c| == dim
    ensures Uniform(members + [v], dim)
    ensures Spread(members + [v], c, dim, dim) == Spread(members, c, dim, dim) + Gap(v, c, dim)
  {
    hide Gap;
    assert (members + [v])[..|members|] == members;
  }

  lemma ClusterSnoc(vectors: seq<Vector>, labels: seq<nat>, centroids: seq<Vector>, dim: nat, i: nat)
    requires Fits(vectors, labels, centroids, dim) && vectors != [] && i < |centroids|
    ensures var n := |vectors| - 1;
            && Fits(vectors[..n], labels[..n], centroids, dim)
            && Uniform(Cluster(vectors, labels, i), dim) && Uniform(Cluster(vectors[..n], labels[..n], i), dim)
            && |vectors[n]| == dim && |centroids[i]| == dim
            && Cluster(vectors, labels, i)
               == Cluster(vectors[..n], labels[..n], i) + if labels[n] == i then [vectors[n]] else []
  {
    var n := |vectors| - 1;
    assert vectors[n] in vectors && centroids[i] in centroids;
  }

  lemma {:induction false} ClusterCostsSnoc(vectors: seq<Vector>, labels: seq<nat>, centroids: seq<Vector>,
                                            dim: nat, k: nat)
    requires Fits(vectors, labels, centroids, dim) && vectors != [] && k <= |centroids|
    ensures Fits(vectors[..|vectors| - 1], labels[..|vectors| - 1], centroids, dim) && |vectors[|vectors| - 1]| == dim
    ensures labels[|vectors| - 1] < |centroids| && |centroids[labels[|vectors| - 1]]| == dim
    ensures var n := |vectors| - 1;
            ClusterCosts(vectors, labels, centroids, dim, k)
            == ClusterCosts(vectors[..n], labels[..n], centroids, dim, k)
               + (if labels[n] < k then Gap(vectors[n], centroids[labels[n]], dim) else 0.0)
    decreases k
  {
    hide Spread, Gap, Cluster, Uniform;
    var n := |vectors| - 1;
    ClusterSnoc(vectors, labels, centroids, dim, labels[n]);
    if k > 0 {
      var i := k - 1;
      ClusterCostsSnoc(vectors, labels, centroids, dim, i);
      ClusterSnoc(vectors, labels, centroids, dim, i);
      var before := Cluster(vectors[..n], labels[..n], i);
      if labels[n] == i {
        SpreadSnoc(before, vectors[n], centroids[i], dim);
      } else {
        assert before + [] == before;
      }
    }
  }

  lemma {:induction false} CostByCluster(vectors: seq<Vector>, labels: seq<nat>, centroids: seq<Vector>, dim: nat)
    requires Fits(vectors, labels, centroids, dim)
    ensures Cost(vectors, labels, centroids, dim) == ClusterCosts(vectors, labels, centroids, dim, |centroids|)
    decreases |vectors|
  {
    hide Gap, ClusterCosts, Uniform;
    if vectors == [] {
      NoMembers(labels, centroids, dim, |centroids|);
    } else {
      var n := |vectors| - 1;
      ClusterCostsSnoc(vectors, labels, centroids, dim, |centroids|);
      CostByCluster(vectors[..n], labels[..n], centroids, dim);
    }
  }

  lemma {:induction false} NoMembers(labels: seq<nat>, centroids: seq<Vector>, dim: nat, k: nat)
    requires Fits([], labels, centroids, dim) && k <= |centroids|
    ensures ClusterCosts([], labels, centroids, dim, k) == 0.0
    decreases k
  {
    if k > 0 {
      NoMembers(labels, centroids, dim, k - 1);
    }
  }

  lemma NewCentroidSpreadsLeast(vectors: seq<Vector>, labels: seq<nat>, centroids: seq<Vector>, rival: Vector,
                                dim: nat, i: nat)
    requires |vectors| == |labels| && Uniform(vectors, dim) && Uniform(centroids, dim) && i < |centroids|
             && |rival| == dim
    ensures Uniform(Cluster(vectors, labels, i), dim)
    ensures Spread(Cluster(vectors, labels, i), NewCentroid(vectors, labels, centroids, dim, i), dim, dim)
            <= Spread(Cluster(vectors, labels, i), rival, dim, dim)
  {
    hide Gap, Mean, Cluster;
    var members := Cluster(vectors, labels, i);
    if members != [] {
      MeanSpreadsLeast(members, rival, dim, dim);
    }
  }

  lemma {:induction false} UpdateSpreadsLeast(vectors: seq<Vector>, labels: seq<nat>, centroids: seq<Vector>,
                                              rival: seq<Vector>, dim: nat, k: nat)
    requires Fits(vectors, labels, centroids, dim) && |rival| == |centroids| && Uniform(rival, dim) && k <= |centroids|
    ensures ClusterCosts(vectors, labels, Update(vectors, labels, centroids, dim), dim, k)
            <= ClusterCosts(vectors, labels, rival, dim, k)
    decreases k
  {
    hide Spread, NewCentroid, Cluster;
    if k > 0 {
      UpdateSpreadsLeast(vectors, labels, centroids, rival, dim, k - 1);
      assert rival[k - 1] in rival;
      NewCentroidSpreadsLeast(vectors, labels, centroids, rival[k - 1], dim, k - 1);
    }
  }

  /** The mean update costs least among all placements of the centroids. */
  lemma UpdateIsBest(vectors: seq<Vector>, labels: seq<nat>, centroids: seq<Vector>, rival: seq<Vector>, dim: nat)
    requires Fits(vectors, labels, centroids, dim) && |rival| == |centroids| && Uniform(rival, dim)
    ensures Cost(vectors, labels, Update(vectors, labels, centroids, dim), dim) <= Cost(vectors, labels, rival, dim)
  {
    hide Update, Cost, ClusterCosts;
    UpdateSpreadsLeast(vectors, labels, centroids, rival, dim, |centroids|);
    CostByCluster(vectors, labels, Update(vectors, labels, centroids, dim), dim);
    CostByCluster(vectors, labels, rival, dim);
  }

  // ---- The run ----

  /** No iteration increases the total squared distance. */
  lemma IterationDescends(vectors: seq<Vector>, initial: seq<Vector>, dim: nat, n: nat, root: real -> real)
    requires Uniform(vectors, dim) && Uniform(initial, dim) && initial != [] && Increasing(root)
    ensures var before, after := Lloyd(vectors, initial, dim, n, root), Lloyd(vectors, initial, dim, n + 1, root);
            Cost(vectors, after.1, after.0, dim) <= Cost(vectors, before.1, before.0, dim)
  {
    hide Cost, Assign, Update;
    var (centroids, labels) := Lloyd(vectors, initial, dim, n, root);
    var closer := Assign(vectors, centroids, root);
    AssignmentIsBest(vectors, labels, centroids, dim, root);
    UpdateIsBest(vectors, closer, centroids, centroids, dim);
  }

  /** Running longer never costs more. */
  lemma {:induction false} RunDescends(vectors: seq<Vector>, initial: seq<Vector>, dim: nat, m: nat, n: nat,
                                       root: real -> real)
    requires Uniform(vectors, dim) && Uniform(initial, dim) && initial != [] && Increasing(root) && m <= n
    ensures var early, late := Lloyd(vectors, initial, dim, m, root), Lloyd(vectors, initial, dim, n, root);
            Cost(vectors, late.1, late.0, dim) <= Cost(vectors, early.1, early.0, dim)
    decreases n
  {
    hide Cost, Lloyd;
    if m < n {
      RunDescends(vectors, initial, dim, m, n - 1, root);
      IterationDescends(vectors, initial, dim, n - 1, root);
    }
  }

  /** After at least one iteration every non-empty returned cluster has its mean as centroid. */
  lemma ReturnedMeans(vectors: seq<Vector>, initial: seq<Vector>, dim: nat, n: nat, root: real -> real, i: nat)
    requires Uniform(vectors, dim) && Uniform(initial, dim) && initial != [] && n >= 1 && i < |initial|
    ensures var (centroids, labels) := Lloyd(vectors, initial, dim, n, root);
            Cluster(vectors, labels, i) != [] ==> centroids[i] == Mean(Cluster(vectors, labels, i), dim)
  {
    hide Mean, Cluster, Assign;
  }

  /** Each vector's distances, the first smallest giving its label. */
  method AssignLabels(vectors: seq<Vector>, centroids: seq<Vector>, root: real -> real) returns (labels: seq<nat>)
    requires centroids != []
    ensures labels == Assign(vectors, centroids, root)
  {
    labels := [];
    var j := 0;
    while j < |vectors|
      invariant j <= |vectors| && labels == Assign(vectors, centroids, root)[..j]
    {
      labels := labels + [Nearest(vectors[j], centroids, root)];
      j := j + 1;
    }
  }

  method ClusterVectors(vectors: seq<Vector>, labels: seq<nat>, i: nat) returns (members: seq<Vector>)
    requires |vectors| == |labels|
    ensures members == Cluster(vectors, labels, i)
  {
    members := [];
    var j := 0;
    while j < |vectors|
      invariant j <= |vectors| && members == Cluster(vectors[..j], labels[..j], i)
    {
      assert vectors[..j + 1][..j] == vectors[..j] && labels[..j + 1][..j] == labels[..j];
      if labels[j] == i {
        members := members + [vectors[j]];
      }
      j := j + 1;
    }
    assert vectors[..j] == vectors && labels[..j] == labels;
  }

  /** None where the source raises ValueError: vectors to assign and no centroid to assign them to. */
  method KMeansCpu(vectors: seq<Vector>, initial: seq<Vector>, maxIters: int, root: real -> real, ghost dim: nat)
    returns (result: Option<(seq<Vector>, seq<nat>)>)
    requires Uniform(vectors, dim) && Uniform(initial, dim)
    ensures result.None? <==> initial == [] && vectors != [] && maxIters > 0
    ensures result.Some? && initial != [] ==>
              result.value == Lloyd(vectors, initial, dim, if maxIters < 0 then 0 else maxIters, root)
    ensures result.Some? && initial == [] ==> result.value == ([], seq(|vectors|, _ => 0))
  {
    hide Assign, Update;
    var centroids, labels := initial, seq(|vectors|, _ => 0);
    if initial == [] {
      if vectors != [] && maxIters > 0 {
        return None;
      }
      return Some((centroids, labels));
    }
    var iteration := 0;
    while iteration < maxIters
      invariant 0 <= iteration && (iteration <= maxIters || maxIters < 0 == iteration)
      invariant (centroids, labels) == Lloyd(vectors, initial, dim, iteration, root)
    {
      labels := AssignLabels(vectors, centroids, root);
      centroids := UpdateCentroids(vectors, labels, centroids, dim);
      iteration := iteration + 1;
    }
    return Some((centroids, labels));
  }

  /** Each centroid is overwritten in turn. */
  method UpdateCentroids(vectors: seq<Vector>, labels: seq<nat>, before: seq<Vector>,
                         ghost dim: nat) returns (centroids: seq<Vector>)
    requires |vectors| == |labels| && Uniform(vectors, dim) && Uniform(before, dim)
    ensures centroids == Update(vectors, labels, before, dim)
  {
    hide Mean, Cluster;
    centroids := before;
    ghost var updated := Update(vectors, labels, before, dim);
    var i := 0;
    while i < |before|
      invariant i <= |before| == |centroids|
      invariant forall m :: 0 <= m < i ==> centroids[m] == updated[m]
      invariant forall m :: i <= m < |before| ==> centroids[m] == before[m]
    {
      var members := ClusterVectors(vectors, labels, i);
      if members != [] {
        var mean := MeanOf(members, dim);
        centroids := centroids[i := mean];
      }
      i := i + 1;
    }
  }

  method MeanOf(members: seq<Vector>, ghost dim: nat) returns (mean: Vector)
    requires Uniform(members, dim) && members != []
    ensures mean == Mean(members, dim)
  {
    mean := [];
    var d := 0;
    while d < |members[0]|
      invariant d <= dim && mean == Mean(members, dim)[..d]
    {
      var sum := 0.0;
      var j := 0;
      ghost var column := Column(members, dim, d);
      while j < |members|
        invariant j <= |members| && sum == Sum(column[..j])
      {
        assert column[..j + 1][..j] == column[..j];
        sum := sum + members[j][d];
        j := j + 1;
      }
      assert column[..j] == column;
      mean := mean + [sum / |members| as real];
      d := d + 1;
    }
  }
}
