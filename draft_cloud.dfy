/**
 * The earlier cloud of cloud.py.  It stores the squared-distance matrix
 * itself and sorts its rows inside every `mknn_graph` call; the rule that
 * turns the sorted rows into a mutual kNN adjacency is the one of
 * mknn/cloud.py.
 */
module DraftCloud {
  import opened Wrappers
  import MknnCloud

  /** A cloud of N points with n coordinates and its N x N squared-distance matrix. */
  datatype Cloud = Cloud(points: seq<seq<real>>, dim: nat, dist: seq<seq<real>>)
  {
    ghost predicate Valid()
    {
      && |dist| == |points|
      && (forall i :: 0 <= i < |dist| ==> |dist[i]| == |points|)
      && forall p :: p in points ==> |p| == dim
    }
  }

  /**
   * `order` is what argsort along the last axis returns for `dist`: each row
   * lists all the points, by non-decreasing distance.
   */
  ghost predicate SortsRows(order: seq<seq<nat>>, dist: seq<seq<real>>)
  {
    && |order| == |dist|
    && MknnCloud.ValidOrder(order)
    && forall i, a, b :: 0 <= i < |dist| && 0 <= a < b < |dist| && |dist[i]| == |dist| ==>
         dist[i][order[i][a]] <= dist[i][order[i][b]]
  }

  /**
   * `mknn_graph(k)`: sort each row of the stored distances, then apply the
   * mutual kNN rule.  The sort is numpy's and is deterministic, so it is passed
   * in as the row order it produces.
   */
  function MknnGraph(cloud: Cloud, order: seq<seq<nat>>, k: nat): (r: Result<MknnCloud.Matrix>)
    requires cloud.Valid() && SortsRows(order, cloud.dist)
    ensures r.Ok? <==> 1 <= k < |cloud.points|
    ensures r.Err? ==> r.error == IndexError
    ensures r.Ok? ==> MknnCloud.Square(r.value, |cloud.points|)
    ensures r.Ok? ==> forall i, j :: 0 <= i < |order| && 0 <= j < |order| ==>
      r.value[i][j] == r.value[j][i] && (r.value[i][j] == 0 || r.value[i][j] == 1)
    ensures r.Ok? ==> forall i, j :: 0 <= i < |order| && 0 <= j < |order| ==>
      (r.value[i][j] == 1 <==> MknnCloud.InFirstK(order[i], k, j) && MknnCloud.InFirstK(order[j], k, i))
  {
    MknnCloud.MknnGraphOf(order, k)
  }

  /**
   * With pairwise distinct points, point i is strictly closest to itself, so
   * every sorted row starts with its own point: the assumption behind skipping
   * position 0.
   */
  lemma DistinctPointsComeFirst(cloud: Cloud, order: seq<seq<nat>>)
    requires cloud.Valid() && SortsRows(order, cloud.dist)
    requires forall i :: 0 <= i < |cloud.dist| ==> cloud.dist[i][i] == 0.0
    requires forall i, j :: 0 <= i < |cloud.dist| && 0 <= j < |cloud.dist| && i != j ==> cloud.dist[i][j] > 0.0
    ensures MknnCloud.SelfFirst(order)
  {
    forall i | 0 <= i < |order| ensures |order[i]| > 0 && order[i][0] == i {
      var row := order[i];
      Wrappers.DistinctBelowCovers(row, i);
    }
  }

  /** For a fixed distance matrix, the graph at k is a subgraph of the graph at k+1. */
  lemma MknnGraphGrows(cloud: Cloud, order: seq<seq<nat>>, k: nat, i: nat, j: nat)
    requires cloud.Valid() && SortsRows(order, cloud.dist)
    requires 1 <= k && k + 1 < |cloud.points| && i < |cloud.points| && j < |cloud.points|
    requires MknnGraph(cloud, order, k).value[i][j] == 1
    ensures MknnGraph(cloud, order, k + 1).value[i][j] == 1
  {
    MknnCloud.MutualGrows(order, k, i, j);
  }

  /** Each point has at most k mutual neighbours. */
  lemma MknnDegreeAtMostK(cloud: Cloud, order: seq<seq<nat>>, k: nat, i: nat)
    requires cloud.Valid() && SortsRows(order, cloud.dist)
    requires 1 <= k < |cloud.points| && i < |cloud.points|
    ensures |MknnCloud.Neighbours(MknnGraph(cloud, order, k).value, i)| <= k
  {
    MknnCloud.MutualDegreeAtMostK(order, k, i);
  }
}
