/**
 * The point cloud of mknn/cloud.py and its mutual k-nearest-neighbour rule.
 *
 * The cloud stores, per point, the order of all points by increasing distance
 * (numpy's argsort of the squared-distance matrix).  That order is taken here
 * as given data; the floating-point distances behind it are not modelled.
 */
module MknnCloud {
  import opened Wrappers

  /** A dense integer matrix, rows first. */
  type Matrix = seq<seq<int>>

  /** `row` lists each of the points `0..n-1` exactly once. */
  predicate IsPermutation(row: seq<nat>, n: nat)
  {
    |row| == n && Distinct(row) && forall t :: 0 <= t < n ==> row[t] < n
  }

  /** Every row of the neighbour order is an ordering of all the points, as argsort returns. */
  predicate ValidOrder(order: seq<seq<nat>>)
  {
    forall i :: 0 <= i < |order| ==> IsPermutation(order[i], |order|)
  }

  /** Every point comes first in its own row, which the source takes for granted. */
  predicate SelfFirst(order: seq<seq<nat>>)
  {
    forall i :: 0 <= i < |order| ==> |order[i]| > 0 && order[i][0] == i
  }

  /** An N x N matrix. */
  predicate Square(m: Matrix, n: nat)
  {
    |m| == n && forall i :: 0 <= i < n ==> |m[i]| == n
  }

  /** The k nearest neighbours of point i: positions 1..k of its row (position 0 is skipped). */
  function Nearest(order: seq<seq<nat>>, i: nat, k: nat): seq<nat>
    requires ValidOrder(order) && i < |order| && k < |order|
  {
    order[i][1..k + 1]
  }

  /** j is at one of the positions 1..k of `row`. */
  ghost predicate InFirstK(row: seq<nat>, k: nat, j: nat)
  {
    exists t :: 1 <= t <= k && t < |row| && row[t] == j
  }

  /** i and j are each at one of the positions 1..k of the other's row. */
  ghost predicate MutualPair(order: seq<seq<nat>>, k: nat, i: nat, j: nat)
    requires i < |order| && j < |order|
  {
    InFirstK(order[i], k, j) && InFirstK(order[j], k, i)
  }

  /** Membership in `Nearest` is being at one of the positions 1..k. */
  lemma NearestAt(order: seq<seq<nat>>, i: nat, k: nat, j: nat)
    requires ValidOrder(order) && i < |order| && k < |order|
    ensures j in Nearest(order, i, k) <==> InFirstK(order[i], k, j)
  {
    if j in Nearest(order, i, k) {
      var t :| 0 <= t < k && Nearest(order, i, k)[t] == j;
      assert order[i][t + 1] == j;
    }
    if InFirstK(order[i], k, j) {
      var t :| 1 <= t <= k && order[i][t] == j;
      assert Nearest(order, i, k)[t - 1] == j;
    }
  }

  /** Each point's neighbour list holds no point twice. */
  lemma NearestCounts(order: seq<seq<nat>>, k: nat)
    requires ValidOrder(order) && k < |order|
    ensures forall i, j :: 0 <= i < |order| ==>
      multiset(Nearest(order, i, k))[j] == if j in Nearest(order, i, k) then 1 else 0
  {
    forall i, j | 0 <= i < |order|
      ensures multiset(Nearest(order, i, k))[j] == if j in Nearest(order, i, k) then 1 else 0
    {
      DistinctSlice(order[i], 1, k + 1);
      DistinctMultiplicity(Nearest(order, i, k), j);
    }
  }

  /**
   * The directed kNN adjacency matrix: entry (i, j) counts the pairs (i, j) in
   * the neighbour list, as a coo_matrix sums repeated entries.  It is 1 exactly
   * when j is at one of the positions 1..k of row i, and 0 otherwise.
   */
  function Directed(order: seq<seq<nat>>, k: nat): (m: Matrix)
    requires ValidOrder(order) && k < |order|
    ensures Square(m, |order|)
    ensures forall i, j :: 0 <= i < |order| && 0 <= j < |order| ==>
      (m[i][j] == 1 <==> j in Nearest(order, i, k)) && (m[i][j] == 0 <==> j !in Nearest(order, i, k))
  {
    NearestCounts(order, k);
    seq(|order|, i requires 0 <= i < |order| =>
      seq(|order|, j => multiset(Nearest(order, i, k))[j]))
  }

  /**
   * The mutual adjacency matrix: the directed matrix multiplied element-wise by
   * its transpose.  It is symmetric, 0/1-valued, and has a 1 at (i, j) exactly
   * when each of i and j is among the other's k nearest neighbours.
   */
  function Mutual(order: seq<seq<nat>>, k: nat): (m: Matrix)
    requires ValidOrder(order) && k < |order|
    ensures Square(m, |order|)
    ensures forall i, j :: 0 <= i < |order| && 0 <= j < |order| ==> m[i][j] == m[j][i]
    ensures forall i, j :: 0 <= i < |order| && 0 <= j < |order| ==> m[i][j] == 0 || m[i][j] == 1
    ensures forall i, j :: 0 <= i < |order| && 0 <= j < |order| ==>
      (m[i][j] == 1 <==> j in Nearest(order, i, k) && i in Nearest(order, j, k))
  {
    var d := Directed(order, k);
    seq(|order|, i requires 0 <= i < |order| =>
      seq(|order|, j requires 0 <= j < |order| => d[i][j] * d[j][i]))
  }

  /** The mutual adjacency in terms of positions in the two rows. */
  lemma MutualAtPositions(order: seq<seq<nat>>, k: nat)
    requires ValidOrder(order) && k < |order|
    ensures forall i: nat, j: nat :: i < |order| && j < |order| ==>
      (Mutual(order, k)[i][j] == 1 <==>
        InFirstK(order[i], k, j) && InFirstK(order[j], k, i))
  {
    forall i: nat, j: nat | i < |order| && j < |order|
      ensures Mutual(order, k)[i][j] == 1 <==>
        InFirstK(order[i], k, j) && InFirstK(order[j], k, i)
    {
      var m := Mutual(order, k);
      assert m[i][j] == 1 <==> j in Nearest(order, i, k) && i in Nearest(order, j, k);
      NearestAt(order, i, k, j);
      NearestAt(order, j, k, i);
    }
  }

  /**
   * `mknn_graph(k)` on a cloud whose neighbour order is `order`.  Position j+1
   * of each row is read for j < k, so k above N-1 raises IndexError; k = 0 (or
   * an empty cloud) leaves the neighbour list empty, and numpy then raises
   * IndexError on its two-column slice.
   */
  function MknnGraphOf(order: seq<seq<nat>>, k: nat): (r: Result<Matrix>)
    requires ValidOrder(order)
    ensures r.Ok? <==> 1 <= k < |order|
    ensures r.Err? ==> r.error == IndexError
    ensures r.Ok? ==> Square(r.value, |order|)
    ensures r.Ok? ==> forall i, j :: 0 <= i < |order| && 0 <= j < |order| ==>
      r.value[i][j] == r.value[j][i] && (r.value[i][j] == 0 || r.value[i][j] == 1)
    ensures r.Ok? ==> forall i, j :: 0 <= i < |order| && 0 <= j < |order| ==>
      (r.value[i][j] == 1 <==>
        InFirstK(order[i], k, j) && InFirstK(order[j], k, i))
  {
    if 1 <= k < |order| then
      MutualAtPositions(order, k);
      Ok(Mutual(order, k))
    else Err(IndexError)
  }

  /** The points adjacent to i in an adjacency matrix. */
  function Neighbours(adj: Matrix, i: nat): set<nat>
    requires i < |adj|
  {
    set j: nat | j < |adj[i]| && adj[i][j] != 0
  }

  /** Each point has at most k mutual neighbours. */
  lemma {:induction false} MutualDegreeAtMostK(order: seq<seq<nat>>, k: nat, i: nat)
    requires ValidOrder(order) && k < |order| && i < |order|
    ensures |Neighbours(Mutual(order, k), i)| <= k
  {
    var m := Mutual(order, k);
    assert Neighbours(m, i) <= Elems(Nearest(order, i, k));
    SubsetCard(Neighbours(m, i), Elems(Nearest(order, i, k)));
    ElemsCard(Nearest(order, i, k));
  }

  /** With the neighbour order fixed, a mutual edge at k is still there at k+1. */
  lemma MutualGrows(order: seq<seq<nat>>, k: nat, i: nat, j: nat)
    requires ValidOrder(order) && k + 1 < |order| && i < |order| && j < |order|
    requires Mutual(order, k)[i][j] == 1
    ensures Mutual(order, k + 1)[i][j] == 1
  {
    assert Nearest(order, i, k) <= Nearest(order, i, k + 1);
    assert Nearest(order, j, k) <= Nearest(order, j, k + 1);
  }

  /** When each point comes first in its own row, no point is its own mutual neighbour. */
  lemma NoSelfLoops(order: seq<seq<nat>>, k: nat, i: nat)
    requires ValidOrder(order) && SelfFirst(order) && k < |order| && i < |order|
    ensures Mutual(order, k)[i][i] == 0
  {
  }

  /**
   * Two coincident points, each row sorted with ties kept in index order:
   * position 0 of row 1 is point 0, not point 1.  At k = 1 point 1 is then its
   * own neighbour and the two points are not mutual neighbours.
   */
  lemma CoincidentPointsAtKOne()
    ensures ValidOrder([[0, 1], [0, 1]])
    ensures Mutual([[0, 1], [0, 1]], 1) == [[0, 0], [0, 1]]
  {
    var order: seq<seq<nat>> := [[0, 1], [0, 1]];
    assert Nearest(order, 0, 1) == [1] && Nearest(order, 1, 1) == [1];
    var m := Mutual(order, 1);
    assert m[0][0] == 0 && m[0][1] == 0 && m[1][0] == 0 && m[1][1] == 1;
    assert m[0] == [0, 0] && m[1] == [0, 1];
  }

  /** A pair that is mutual at step k is still mutual at step k+1. */
  lemma MutualPairGrows(order: seq<seq<nat>>, k: nat, i: nat, j: nat)
    requires i < |order| && j < |order|
    requires MutualPair(order, k, i, j)
    ensures MutualPair(order, k + 1, i, j)
  {
    var t :| 1 <= t <= k && t < |order[i]| && order[i][t] == j;
    assert InFirstK(order[i], k + 1, j);
    var u :| 1 <= u <= k && u < |order[j]| && order[j][u] == i;
    assert InFirstK(order[j], k + 1, i);
  }

  /** The undirected edges of an adjacency matrix, as networkx lists them: pairs i <= j with a non-zero entry. */
  function Edges(adj: Matrix): (r: set<(nat, nat)>)
    requires Square(adj, |adj|)
    ensures forall e :: e in r <==> e.0 <= e.1 < |adj| && adj[e.0][e.1] != 0
  {
    set i: nat, j: nat | i <= j < |adj| && adj[i][j] != 0 :: (i, j)
  }

  /**
   * The cloud: N points with n coordinates each, and the per-point neighbour
   * order computed once at construction.
   */
  datatype Cloud = Cloud(points: seq<seq<real>>, dim: nat, order: seq<seq<nat>>)
  {
    ghost predicate Valid()
    {
      && |order| == |points|
      && ValidOrder(order)
      && forall p :: p in points ==> |p| == dim
    }

    /** `self.size`: the number of points. */
    function Size(): nat
    {
      |points|
    }

    /** `mknn_graph(k, verbose)`; the verbose flag only controls progress output. */
    function MknnGraph(k: nat): (r: Result<Matrix>)
      requires Valid()
      ensures r.Ok? <==> 1 <= k < Size()
      ensures r.Ok? ==> Square(r.value, Size())
    {
      MknnGraphOf(order, k)
    }
  }

  /**
   * `retrieve_clique` of a cloud with the given points: the coordinates of the
   * clique's points, in the clique's order.  cloud.py has the same method, so
   * this one function serves both clouds.
   */
  function RetrieveClique(points: seq<seq<real>>, clique: seq<nat>): (r: Result<seq<seq<real>>>)
    ensures r.Ok? <==> forall t :: 0 <= t < |clique| ==> clique[t] < |points|
    ensures r.Err? ==> r.error == IndexError
    ensures r.Ok? ==> |r.value| == |clique|
    ensures r.Ok? ==> forall t :: 0 <= t < |clique| ==> r.value[t] == points[clique[t]]
  {
    if forall t :: 0 <= t < |clique| ==> clique[t] < |points| then
      Ok(seq(|clique|, t requires 0 <= t < |clique| => points[clique[t]]))
    else Err(IndexError)
  }
}
