/**
 * The filtration of mknn/filtration.py: the cliques of the mutual kNN graphs
 * for k = 0 .. k_max, sorted by the step at which they appear, and the
 * incremental tracker that gives each clique a homology class and merges the
 * classes of the two endpoints of every edge that joins two components.
 */
module MknnFiltration {
  import opened Wrappers
  import MknnCloud
  import opened MknnClique
  import opened HomologyDict

  /**
   * A homology class as the tracker uses it: its dimension, the points it
   * represents, the step at which it was born and, once killed, the step at
   * which it died.  The module defining the class is not part of this model;
   * only these four attributes are used.
   */
  datatype HomClass = HomClass(dim: int, reps: set<nat>, birth: nat, death: Option<nat>)

  /** `Clique([x], 0, 0)`: the vertex x, present from step 0, with diameter 0. */
  function Singleton(x: nat): Clique
  {
    Clique([x], Some(0), Some(0.0))
  }

  /** The vertices 0 .. n-1, in index order. */
  function Singletons(n: nat): (r: seq<Clique>)
    ensures |r| == n
    ensures forall x :: 0 <= x < n ==> r[x] == Singleton(x)
  {
    seq(n, x requires 0 <= x < n => Singleton(x))
  }

  /**
   * The scalar 0 passed as distance matrix for a vertex is never indexed, as a
   * single point has no pairs; it behaves as any matrix would.
   */
  lemma SingletonIsNewClique(x: nat, m: seq<seq<real>>)
    ensures NewClique([x], Some(0), Some(m)) == Ok(Singleton(x))
  {
  }

  /** The edge {i, j} is mutual at step k and was not at step k-1: k is its first step. */
  ghost predicate BornAt(order: seq<seq<nat>>, i: nat, j: nat, k: nat)
    requires MknnCloud.ValidOrder(order) && i < |order| && j < |order| && 1 <= k < |order|
  {
    && MknnCloud.MutualPair(order, k, i, j)
    && (k == 1 || !MknnCloud.MutualPair(order, k - 1, i, j))
  }

  /** A step k at which an edge is born is the smallest step at which it is mutual. */
  lemma {:induction false} BornAtIsFirst(order: seq<seq<nat>>, i: nat, j: nat, k: nat, kk: nat)
    requires MknnCloud.ValidOrder(order) && i < |order| && j < |order| && 1 <= k < |order|
    requires BornAt(order, i, j, k)
    requires 1 <= kk < k
    ensures !MknnCloud.MutualPair(order, kk, i, j)
    decreases k - kk
  {
    if kk < k - 1 {
      BornAtIsFirst(order, i, j, k, kk + 1);
      if MknnCloud.MutualPair(order, kk, i, j) {
        MknnCloud.MutualPairGrows(order, kk, i, j);
      }
    }
  }

  /**
   * An edge as build_complex adds it: `Clique([i, j], k)` with i < j, no
   * diameter, and k the first step at which the two points are mutual neighbours.
   */
  ghost predicate EdgeShape(c: Clique, order: seq<seq<nat>>)
    requires MknnCloud.ValidOrder(order)
  {
    && |c.points| == 2 && c.points[0] < c.points[1] < |order|
    && c.k.Some? && 1 <= c.k.value < |order|
    && c.diameter.None?
    && BornAt(order, c.points[0], c.points[1], c.k.value)
  }

  /** Some edge stored has the point list [i, j]. */
  ghost predicate Present(edges: seq<Clique>, i: nat, j: nat)
  {
    exists t :: 0 <= t < |edges| && edges[t].points == [i, j]
  }

  /**
   * Edges gathered before step k: each born before k, no point list twice, and
   * in the order of their steps.
   */
  ghost predicate EdgesWellFormed(edges: seq<Clique>, order: seq<seq<nat>>, k: nat)
    requires MknnCloud.ValidOrder(order)
  {
    && (forall t :: 0 <= t < |edges| ==> EdgeShape(edges[t], order) && edges[t].k.value < k)
    && (forall a, b :: 0 <= a < b < |edges| ==> edges[a].points != edges[b].points)
    && (forall a, b :: (0 <= a < b < |edges| && edges[a].k.Some? && edges[b].k.Some?) ==>
          edges[a].k.value <= edges[b].k.value)
  }

  /** Every pair that is mutual at a step below k is present. */
  ghost predicate EdgesComplete(edges: seq<Clique>, order: seq<seq<nat>>, k: nat)
  {
    forall i, j, kk :: (0 <= i < j < |order| && 1 <= kk < k && MknnCloud.MutualPair(order, kk, i, j)) ==>
      Present(edges, i, j)
  }

  /** The edges gathered before step k. */
  ghost predicate EdgesSoFar(edges: seq<Clique>, order: seq<seq<nat>>, k: nat)
    requires MknnCloud.ValidOrder(order)
  {
    EdgesWellFormed(edges, order, k) && EdgesComplete(edges, order, k)
  }

  /** Appending an edge born at step k that is not yet present keeps the edges well formed. */
  lemma AppendEdge(edges: seq<Clique>, order: seq<seq<nat>>, k: nat, i: nat, j: nat)
    requires MknnCloud.ValidOrder(order) && EdgesWellFormed(edges, order, k + 1)
    requires i < j < |order| && 1 <= k < |order| && BornAt(order, i, j, k)
    requires !Present(edges, i, j)
    ensures EdgesWellFormed(edges + [Clique([i, j], Some(k), None)], order, k + 1)
    ensures forall i', j' :: Present(edges, i', j') ==> Present(edges + [Clique([i, j], Some(k), None)], i', j')
    ensures Present(edges + [Clique([i, j], Some(k), None)], i, j)
  {
    var r := edges + [Clique([i, j], Some(k), None)];
    forall i': nat, j': nat | Present(edges, i', j') ensures Present(r, i', j') {
      var t :| 0 <= t < |edges| && edges[t].points == [i', j'];
      assert r[t] == edges[t];
    }
    assert r[|r| - 1].points == [i, j];
    forall a, b | 0 <= a < b < |r| ensures r[a].points != r[b].points {
      if b == |edges| {
        assert r[a] == edges[a];
        assert !(edges[a].points == [i, j]);
      }
    }
  }

  /**
   * The edges networkx lists for the mutual graph at step k are the pairs i < j
   * that are mutual at k; there are no self-loops when every point comes first
   * in its own row.
   */
  lemma GraphEdges(order: seq<seq<nat>>, k: nat)
    requires MknnCloud.ValidOrder(order) && MknnCloud.SelfFirst(order) && 1 <= k < |order|
    ensures forall e :: e in MknnCloud.Edges(MknnCloud.Mutual(order, k)) <==>
      e.0 < e.1 < |order| && MknnCloud.MutualPair(order, k, e.0, e.1)
  {
    MknnCloud.MutualAtPositions(order, k);
    forall i | 0 <= i < |order| ensures MknnCloud.Mutual(order, k)[i][i] == 0 {
      MknnCloud.NoSelfLoops(order, k, i);
    }
  }

  /** A pair that is mutual at k but not yet present was born at k. */
  lemma FreshEdgeIsBorn(edges: seq<Clique>, order: seq<seq<nat>>, k: nat, i: nat, j: nat)
    requires MknnCloud.ValidOrder(order) && 1 <= k < |order| && i < j < |order|
    requires EdgesComplete(edges, order, k) && !Present(edges, i, j)
    requires MknnCloud.MutualPair(order, k, i, j)
    ensures BornAt(order, i, j, k)
  {
  }

  /**
   * One step of the loop of build_complex: `cliques.union(set(Clique(c, k) for c
   * in graph.edges))`, where `pairs` are the graph's edges.  They are visited in
   * no particular order; an edge whose point set is already present is dropped,
   * so the stored clique keeps its earlier k.  Stored edges have their points in
   * increasing order, so comparing the lists is comparing the point sets.
   */
  method UniteEdges(order: seq<seq<nat>>, k: nat, pairs: set<(nat, nat)>, edges: seq<Clique>) returns (r: seq<Clique>)
    requires MknnCloud.ValidOrder(order) && 1 <= k < |order|
    requires forall e :: e in pairs <==> e.0 < e.1 < |order| && MknnCloud.MutualPair(order, k, e.0, e.1)
    requires EdgesSoFar(edges, order, k)
    ensures EdgesSoFar(r, order, k + 1)
    ensures |edges| <= |r| && r[..|edges|] == edges
    ensures forall t :: |edges| <= t < |r| ==> r[t].k == Some(k)
  {
    r := edges;
    var todo := pairs;
    while todo != {}
      invariant todo <= pairs
      invariant |edges| <= |r| && r[..|edges|] == edges
      invariant forall t :: |edges| <= t < |r| ==> r[t].k == Some(k)
      invariant EdgesWellFormed(r, order, k + 1)
      invariant EdgesComplete(r, order, k)
      invariant forall e :: e in pairs - todo ==> Present(r, e.0, e.1)
      decreases |todo|
    {
      var e :| e in todo;
      todo := todo - {e};
      var i, j := e.0, e.1;
      if !(exists t :: 0 <= t < |r| && r[t].points == [i, j]) {
        FreshEdgeIsBorn(r, order, k, i, j);
        AppendEdge(r, order, k, i, j);
        AppendAfter(edges, r, Clique([i, j], Some(k), None), k);
        r := r + [Clique([i, j], Some(k), None)];
      }
    }
    forall i, j | 0 <= i < j < |order| && MknnCloud.MutualPair(order, k, i, j) ensures Present(r, i, j) {
      assert (i, j) in pairs;
    }
  }

  /** Appending an edge of step k keeps the old edges in front and the new ones at step k. */
  lemma AppendAfter(edges: seq<Clique>, r: seq<Clique>, c: Clique, k: nat)
    requires |edges| <= |r| && r[..|edges|] == edges && c.k == Some(k)
    requires forall t :: |edges| <= t < |r| ==> r[t].k == Some(k)
    ensures |edges| <= |r + [c]| && (r + [c])[..|edges|] == edges
    ensures forall t :: |edges| <= t < |r + [c]| ==> (r + [c])[t].k == Some(k)
  {
    assert (r + [c])[..|edges|] == r[..|edges|];
  }

  /**
   * The complex as build_complex leaves it, for a cloud of N = |order| points:
   * the N vertices in index order, then edges of non-decreasing k, no point set
   * twice, and every pair that is mutual at some step up to N-1 present.
   */
  ghost predicate Built(complex: seq<Clique>, order: seq<seq<nat>>)
  {
    && MknnCloud.ValidOrder(order)
    && |order| <= |complex|
    && (forall x :: 0 <= x < |order| ==> complex[x] == Singleton(x))
    && EdgesSoFar(complex[|order|..], order, |order|)
  }

  /** `n` vertices followed by the edges gathered through step k_max form a built complex. */
  lemma BuiltFromParts(order: seq<seq<nat>>, edges: seq<Clique>)
    requires MknnCloud.ValidOrder(order)
    requires EdgesSoFar(edges, order, |order|)
    ensures Built(Singletons(|order|) + edges, order)
  {
    var complex := Singletons(|order|) + edges;
    assert complex[|order|..] == edges;
    forall x | 0 <= x < |order| ensures complex[x] == Singleton(x) {
      assert complex[x] == Singletons(|order|)[x];
    }
  }

  /** A member past the vertices is an edge born at its step. */
  lemma BuiltEdgeAt(complex: seq<Clique>, order: seq<seq<nat>>, t: nat)
    requires Built(complex, order) && |order| <= t < |complex|
    ensures EdgeShape(complex[t], order)
  {
    assert complex[t] == complex[|order|..][t - |order|];
  }

  /** Two edges of the complex have different point lists and ks in list order. */
  lemma BuiltEdgesOrdered(complex: seq<Clique>, order: seq<seq<nat>>, a: nat, b: nat)
    requires Built(complex, order) && |order| <= a < b < |complex|
    ensures complex[a].points != complex[b].points
    ensures complex[a].k.Some? && complex[b].k.Some? && complex[a].k.value <= complex[b].k.value
  {
    var edges := complex[|order|..];
    assert complex[a] == edges[a - |order|] && complex[b] == edges[b - |order|];
  }

  /** The complex holds exactly the vertices and 2-point edges: nothing larger. */
  lemma BuiltShapes(complex: seq<Clique>, order: seq<seq<nat>>)
    requires Built(complex, order)
    ensures forall t :: 0 <= t < |order| ==> complex[t].points == [t] && complex[t].k == Some(0)
    ensures forall t :: |order| <= t < |complex| ==>
      |complex[t].points| == 2 && complex[t].points[0] < complex[t].points[1] < |order|
  {
    forall t | |order| <= t < |complex|
      ensures |complex[t].points| == 2 && complex[t].points[0] < complex[t].points[1] < |order|
    {
      BuiltEdgeAt(complex, order, t);
    }
  }

  /**
   * Sorted by (k, size): the vertices come first with k = 0, and the edges
   * follow in non-decreasing k; every k lies in 0 .. N-1.
   */
  lemma BuiltSorted(complex: seq<Clique>, order: seq<seq<nat>>)
    requires Built(complex, order)
    ensures forall c :: c in complex ==> c.k.Some? && c.k.value < |order|
    ensures forall a, b :: 0 <= a < b < |complex| ==>
      complex[a].k.value < complex[b].k.value ||
      (complex[a].k.value == complex[b].k.value && complex[a].Size() <= complex[b].Size())
  {
    var n := |order|;
    forall t | 0 <= t < |complex| ensures complex[t].k.Some? && complex[t].k.value < n {
      if n <= t {
        BuiltEdgeAt(complex, order, t);
      }
    }
    forall a, b | 0 <= a < b < |complex|
      ensures complex[a].k.value < complex[b].k.value ||
        (complex[a].k.value == complex[b].k.value && complex[a].Size() <= complex[b].Size())
    {
      if n <= b {
        BuiltEdgeAt(complex, order, b);
      }
      if n <= a {
        BuiltEdgeAt(complex, order, a);
        BuiltEdgesOrdered(complex, order, a, b);
      }
    }
  }

  /** No two members of the complex are equal cliques. */
  lemma BuiltDistinct(complex: seq<Clique>, order: seq<seq<nat>>)
    requires Built(complex, order)
    ensures forall a, b :: 0 <= a < b < |complex| ==> !Same(complex[a], complex[b])
  {
    var n := |order|;
    forall a, b | 0 <= a < b < |complex| ensures !Same(complex[a], complex[b]) {
      if b < n {
        assert a in Elems(complex[a].points) && a !in Elems(complex[b].points);
      } else if a < n {
        BuiltEdgeAt(complex, order, b);
        PairIsNotPoint(complex[b].points, a);
      } else {
        BuiltEdgesOrdered(complex, order, a, b);
        BuiltEdgeAt(complex, order, a);
        BuiltEdgeAt(complex, order, b);
        OrderedPairsDiffer(complex[a].points, complex[b].points);
      }
    }
  }

  /** Two different points are not one point. */
  lemma PairIsNotPoint(p: seq<nat>, x: nat)
    requires |p| == 2 && p[0] != p[1]
    ensures Elems(p) != Elems([x])
  {
    assert p[0] in Elems(p) && p[1] in Elems(p);
  }

  /** Two increasing pairs with the same points are the same list. */
  lemma OrderedPairsDiffer(p: seq<nat>, q: seq<nat>)
    requires |p| == 2 && |q| == 2 && p[0] < p[1] && q[0] < q[1] && p != q
    ensures Elems(p) != Elems(q)
  {
    assert p[0] in Elems(p) && p[1] in Elems(p) && q[0] in Elems(q) && q[1] in Elems(q);
  }

  /**
   * Every pair that is mutual at some step up to N-1 is in the complex, with the
   * first step at which it is mutual.
   */
  lemma BuiltComplete(complex: seq<Clique>, order: seq<seq<nat>>, i: nat, j: nat, k: nat)
    requires Built(complex, order)
    requires i < j < |order| && 1 <= k < |order| && MknnCloud.MutualPair(order, k, i, j)
    ensures exists t :: (|order| <= t < |complex| && complex[t].points == [i, j] &&
      complex[t].k.Some? && complex[t].k.value <= k &&
      forall kk :: 1 <= kk < complex[t].k.value ==> !MknnCloud.MutualPair(order, kk, i, j))
  {
    var n := |order|;
    var edges := complex[n..];
    assert Present(edges, i, j);
    var t :| 0 <= t < |edges| && edges[t].points == [i, j];
    assert complex[n + t] == edges[t];
    BuiltEdgeAt(complex, order, n + t);
    var c := complex[n + t];
    if k < c.k.value {
      BornAtIsFirst(order, i, j, c.k.value, k);
    }
    forall kk | 1 <= kk < c.k.value ensures !MknnCloud.MutualPair(order, kk, i, j) {
      BornAtIsFirst(order, i, j, c.k.value, kk);
    }
  }

  /** The length of the longest prefix whose cliques all have k below n. */
  function PrefixBelow(s: seq<Clique>, n: nat): (r: nat)
    requires forall c :: c in s ==> c.k.Some?
    ensures r <= |s|
    ensures forall t :: 0 <= t < r ==> s[t].k.value < n
    ensures r < |s| ==> s[r].k.value >= n
    decreases |s|
  {
    if s == [] || s[0].k.value >= n then 0
    else
      assert forall c :: c in s[1..] ==> c in s;
      1 + PrefixBelow(s[1..], n)
  }

  /** Every clique has a k. */
  ghost predicate Stepped(s: seq<Clique>)
  {
    forall c :: c in s ==> c.k.Some?
  }

  /** Every clique has a k, and the ks do not decrease along the list. */
  ghost predicate SortedByStep(s: seq<Clique>)
  {
    && Stepped(s)
    && forall a, b :: 0 <= a < b < |s| && s[a].k.Some? && s[b].k.Some? ==> s[a].k.value <= s[b].k.value
  }

  /**
   * `self[n]`: the cliques of the complex with k == n.  Cliques with a smaller k
   * are skipped and the first with a larger k ends the generator; comparing a
   * missing k with n raises TypeError.  The generator is taken whole: the
   * cliques it yields before raising are not part of the result.
   */
  function AtStep(complex: seq<Clique>, n: nat): (r: Result<seq<Clique>>)
    ensures r.Err? ==> r.error == TypeError
    ensures (forall c :: c in complex ==> c.k.Some?) ==> r.Ok?
    ensures r.Ok? ==> forall c :: c in r.value ==> c in complex && c.k == Some(n)
    ensures r.Ok? ==> IsSubsequence(r.value, complex)
    decreases |complex|
  {
    if complex == [] then Ok([])
    else
      assert forall c :: c in complex ==> c == complex[0] || c in complex[1..];
      match complex[0].k
      case None => Err(TypeError)
      case Some(k) =>
        if k < n then
          var rest := AtStep(complex[1..], n);
          assert rest.Ok? ==> rest.value == [] || rest.value[0] != complex[0];
          rest
        else if k == n then
          var rest := AtStep(complex[1..], n);
          if rest.Ok? then Ok([complex[0]] + rest.value) else rest
        else Ok([])
  }

  /**
   * On a complex sorted by k, `self[n]` is the slice of the cliques with k == n:
   * exactly those cliques, in complex order.
   */
  lemma {:induction false} AtStepOfSorted(complex: seq<Clique>, n: nat)
    requires SortedByStep(complex)
    ensures AtStep(complex, n) == Ok(complex[PrefixBelow(complex, n)..PrefixBelow(complex, n + 1)])
    decreases |complex|
  {
    if complex != [] {
      SortedTail(complex);
      AtStepOfSorted(complex[1..], n);
      if complex[0].k.value == n {
        PrefixAtStart(complex, n);
      }
      PrefixOrdered(complex[1..], n);
      AtStepCons(complex, n);
    } else {
      assert AtStep(complex, n) == Ok([]);
    }
  }

  /** The slice for a list, from the slice for its tail. */
  lemma AtStepCons(complex: seq<Clique>, n: nat)
    requires complex != [] && Stepped(complex) && Stepped(complex[1..])
    requires complex[0].k.value == n ==> PrefixBelow(complex[1..], n) == 0
    requires PrefixBelow(complex[1..], n) <= PrefixBelow(complex[1..], n + 1)
    requires AtStep(complex[1..], n) == Ok(complex[1..][PrefixBelow(complex[1..], n)..PrefixBelow(complex[1..], n + 1)])
    ensures AtStep(complex, n) == Ok(complex[PrefixBelow(complex, n)..PrefixBelow(complex, n + 1)])
  {
    var k := complex[0].k.value;
    if k < n {
      AtStepConsBelow(complex, n);
    } else if k == n {
      AtStepConsAt(complex, n);
    } else {
      AtStepFirst(complex, n);
    }
  }

  /** AtStepCons when the first clique is below step n. */
  lemma AtStepConsBelow(complex: seq<Clique>, n: nat)
    requires complex != [] && Stepped(complex) && Stepped(complex[1..]) && complex[0].k.value < n
    requires PrefixBelow(complex[1..], n) <= PrefixBelow(complex[1..], n + 1)
    requires AtStep(complex[1..], n) == Ok(complex[1..][PrefixBelow(complex[1..], n)..PrefixBelow(complex[1..], n + 1)])
    ensures AtStep(complex, n) == Ok(complex[PrefixBelow(complex, n)..PrefixBelow(complex, n + 1)])
  {
    var lo, hi := PrefixBelow(complex[1..], n), PrefixBelow(complex[1..], n + 1);
    PrefixShift(complex, n);
    PrefixShift(complex, n + 1);
    assert PrefixBelow(complex, n) == 1 + lo && PrefixBelow(complex, n + 1) == 1 + hi;
    AtStepSkip(complex, n, lo, hi);
  }

  /** AtStepCons when the first clique is at step n. */
  lemma AtStepConsAt(complex: seq<Clique>, n: nat)
    requires complex != [] && Stepped(complex) && Stepped(complex[1..]) && complex[0].k.value == n
    requires PrefixBelow(complex[1..], n) == 0
    requires AtStep(complex[1..], n) == Ok(complex[1..][0..PrefixBelow(complex[1..], n + 1)])
    ensures AtStep(complex, n) == Ok(complex[PrefixBelow(complex, n)..PrefixBelow(complex, n + 1)])
  {
    var hi := PrefixBelow(complex[1..], n + 1);
    AtStepTake(complex, n, hi);
    PrefixShift(complex, n + 1);
    assert complex[PrefixBelow(complex, n)..PrefixBelow(complex, n + 1)] == complex[0..1 + hi];
  }

  /** The prefix below n is no longer than the prefix below n + 1. */
  lemma PrefixOrdered(s: seq<Clique>, n: nat)
    requires forall c :: c in s ==> c.k.Some?
    ensures PrefixBelow(s, n) <= PrefixBelow(s, n + 1)
  {
  }

  /** A first clique below step n is skipped: the slice of the tail is the slice one further on. */
  lemma AtStepSkip(complex: seq<Clique>, n: nat, lo: nat, hi: nat)
    requires complex != [] && complex[0].k.Some? && complex[0].k.value < n && lo <= hi < |complex|
    requires AtStep(complex[1..], n) == Ok(complex[1..][lo..hi])
    ensures AtStep(complex, n) == Ok(complex[1 + lo..1 + hi])
  {
    AtStepFirst(complex, n);
    SliceShift(complex, lo, hi);
  }

  /** A first clique at step n opens the slice, which then starts at 0. */
  lemma AtStepTake(complex: seq<Clique>, n: nat, hi: nat)
    requires complex != [] && complex[0].k == Some(n) && hi < |complex|
    requires AtStep(complex[1..], n) == Ok(complex[1..][0..hi])
    ensures AtStep(complex, n) == Ok(complex[0..1 + hi])
  {
    AtStepFirst(complex, n);
    ConsSlice(complex, hi);
  }

  /** What `self[n]` does with the first clique, when it has a k. */
  lemma AtStepFirst(complex: seq<Clique>, n: nat)
    requires complex != [] && complex[0].k.Some?
    ensures complex[0].k.value < n ==> AtStep(complex, n) == AtStep(complex[1..], n)
    ensures complex[0].k.value == n && AtStep(complex[1..], n).Ok? ==>
      AtStep(complex, n) == Ok([complex[0]] + AtStep(complex[1..], n).value)
    ensures complex[0].k.value > n ==> AtStep(complex, n) == Ok([])
  {
  }

  /** When the first clique is at step n, no clique of the tail is below n. */
  lemma PrefixAtStart(complex: seq<Clique>, n: nat)
    requires SortedByStep(complex) && complex != [] && complex[0].k.value == n
    requires SortedByStep(complex[1..])
    ensures PrefixBelow(complex, n) == 0 && PrefixBelow(complex[1..], n) == 0
  {
    if |complex| > 1 {
      assert complex[1..][0] == complex[1];
    }
  }

  /** The first element followed by a prefix of the tail is a prefix of the list. */
  lemma ConsSlice<T>(s: seq<T>, hi: nat)
    requires hi < |s|
    ensures [s[0]] + s[1..][0..hi] == s[0..1 + hi]
  {
  }

  /** Below the first clique's step, the prefix of the list is one longer than its tail's. */
  lemma PrefixShift(complex: seq<Clique>, n: nat)
    requires Stepped(complex) && complex != [] && complex[0].k.value < n
    ensures PrefixBelow(complex, n) == 1 + PrefixBelow(complex[1..], n)
  {
  }

  /** A slice of the tail is the slice of the list one position further on. */
  lemma SliceShift<T>(s: seq<T>, lo: nat, hi: nat)
    requires lo <= hi < |s|
    ensures s[1 + lo..1 + hi] == s[1..][lo..hi]
  {
    forall t | 0 <= t < hi - lo ensures s[1 + lo..1 + hi][t] == s[1..][lo..hi][t] {
    }
  }

  /** The tail of a list sorted by step is sorted by step. */
  lemma SortedTail(complex: seq<Clique>)
    requires SortedByStep(complex) && complex != []
    ensures SortedByStep(complex[1..])
  {
    var tail := complex[1..];
    forall c | c in tail ensures c.k.Some? {
      assert c in complex;
    }
    forall a, b | 0 <= a < b < |tail| && tail[a].k.Some? && tail[b].k.Some?
      ensures tail[a].k.value <= tail[b].k.value
    {
      assert tail[a] == complex[a + 1] && tail[b] == complex[b + 1];
    }
  }

  /** On a sorted complex, `self[n]` holds exactly the cliques whose k is n. */
  lemma AtStepMembers(complex: seq<Clique>, n: nat)
    requires SortedByStep(complex)
    ensures AtStep(complex, n).Ok?
    ensures forall c :: c in AtStep(complex, n).value <==> c in complex && c.k == Some(n)
  {
    AtStepOfSorted(complex, n);
    SliceMembers(complex, n);
  }

  /** The slice between the two prefixes holds exactly the cliques whose k is n. */
  lemma SliceMembers(complex: seq<Clique>, n: nat)
    requires SortedByStep(complex)
    ensures forall c :: c in complex[PrefixBelow(complex, n)..PrefixBelow(complex, n + 1)] <==> c in complex && c.k == Some(n)
  {
    PrefixOrdered(complex, n);
    SliceHasAll(complex, n);
    SliceHasOnly(complex, n);
  }

  /** Every clique at step n is in the slice. */
  lemma SliceHasAll(complex: seq<Clique>, n: nat)
    requires SortedByStep(complex) && PrefixBelow(complex, n) <= PrefixBelow(complex, n + 1)
    ensures forall c :: c in complex && c.k == Some(n) ==> c in complex[PrefixBelow(complex, n)..PrefixBelow(complex, n + 1)]
  {
    forall c | c in complex && c.k == Some(n) ensures c in complex[PrefixBelow(complex, n)..PrefixBelow(complex, n + 1)] {
      var t :| 0 <= t < |complex| && complex[t] == c;
      SliceHas(complex, n, t);
    }
  }

  /** A clique at step n is in the slice. */
  lemma SliceHas(complex: seq<Clique>, n: nat, t: nat)
    requires SortedByStep(complex) && t < |complex| && complex[t].k == Some(n)
    requires PrefixBelow(complex, n) <= PrefixBelow(complex, n + 1)
    ensures complex[t] in complex[PrefixBelow(complex, n)..PrefixBelow(complex, n + 1)]
  {
    var lo, hi := PrefixBelow(complex, n), PrefixBelow(complex, n + 1);
    SlicePosition(complex, n, t);
    assert complex[lo..hi][t - lo] == complex[t];
  }

  /** Every clique of the slice is at step n. */
  lemma SliceHasOnly(complex: seq<Clique>, n: nat)
    requires SortedByStep(complex) && PrefixBelow(complex, n) <= PrefixBelow(complex, n + 1)
    ensures forall c :: c in complex[PrefixBelow(complex, n)..PrefixBelow(complex, n + 1)] ==> c in complex && c.k == Some(n)
  {
    var lo, hi := PrefixBelow(complex, n), PrefixBelow(complex, n + 1);
    forall c | c in complex[lo..hi] ensures c in complex && c.k == Some(n) {
      var i :| 0 <= i < hi - lo && complex[lo..hi][i] == c;
      SliceAt(complex, n, lo, hi, i);
    }
  }

  /** The i-th clique of the slice is a clique of the complex at step n. */
  lemma SliceAt(complex: seq<Clique>, n: nat, lo: nat, hi: nat, i: nat)
    requires SortedByStep(complex) && lo == PrefixBelow(complex, n) && hi == PrefixBelow(complex, n + 1)
    requires i < hi - lo
    ensures complex[lo..hi][i] in complex && complex[lo..hi][i].k == Some(n)
  {
    SliceStep(complex, n, lo + i);
    assert complex[lo..hi][i] == complex[lo + i];
  }

  /** A clique at step n sits between the two prefixes. */
  lemma SlicePosition(complex: seq<Clique>, n: nat, t: nat)
    requires SortedByStep(complex) && t < |complex| && complex[t].k == Some(n)
    ensures PrefixBelow(complex, n) <= t < PrefixBelow(complex, n + 1)
  {
  }

  /** A clique between the two prefixes is at step n. */
  lemma SliceStep(complex: seq<Clique>, n: nat, t: nat)
    requires SortedByStep(complex) && PrefixBelow(complex, n) <= t < PrefixBelow(complex, n + 1)
    ensures complex[t].k == Some(n)
  {
    var lo := PrefixBelow(complex, n);
    assert complex[lo].k.value <= complex[t].k.value;
  }

  /** `self[n]` of a sorted complex is the slice between the two prefixes, all of whose members are at step n. */
  lemma StepSlice(complex: seq<Clique>, n: nat, lo: nat, hi: nat)
    requires SortedByStep(complex) && lo == PrefixBelow(complex, n) && hi == PrefixBelow(complex, n + 1)
    ensures lo <= hi <= |complex| && AtStep(complex, n) == Ok(complex[lo..hi])
    ensures forall j :: 0 <= j < hi - lo ==> complex[lo..hi][j].k == Some(n)
  {
    AtStepOfSorted(complex, n);
    PrefixOrdered(complex, n);
    SliceOfStep(complex, n, lo, hi);
  }

  /** Every member of the slice between the two prefixes is at step n. */
  lemma SliceOfStep(complex: seq<Clique>, n: nat, lo: nat, hi: nat)
    requires SortedByStep(complex) && lo == PrefixBelow(complex, n) && hi == PrefixBelow(complex, n + 1)
    requires lo <= hi
    ensures forall j :: 0 <= j < hi - lo ==> complex[lo..hi][j].k == Some(n)
  {
    forall j | 0 <= j < hi - lo ensures complex[lo..hi][j].k == Some(n) {
      SliceStep(complex, n, lo + j);
    }
  }

  /** When every k is below top, the prefix below top is the whole list. */
  lemma PrefixBelowAll(complex: seq<Clique>, top: nat)
    requires forall c :: c in complex ==> c.k.Some? && c.k.value < top
    ensures PrefixBelow(complex, top) == |complex|
  {
  }

  /**
   * The state of the persistence tracker: the class of each processed clique
   * (the HomDict), the classes created so far, where a class is named by its
   * index, and one generator list per dimension.
   */
  datatype Tracker = Tracker(dict: map<Clique, nat>, classes: seq<HomClass>, generators: seq<seq<nat>>)

  /** Every clique is mapped to a class that exists. */
  ghost predicate WellFormed(s: Tracker)
  {
    forall c :: c in s.dict ==> s.dict[c] < |s.classes|
  }

  /** The state before any clique is processed: `g` empty generator lists. */
  function Initial(g: nat): (s: Tracker)
    ensures WellFormed(s) && |s.generators| == g
  {
    Tracker(map[], [], seq(g, _ => []))
  }

  /**
   * The cliques the tracker handles: a vertex, or an edge with exactly two faces
   * in the filtration, each with a k.  These are the only cliques build_complex
   * makes; for others the sum of the face classes, whose definition is not part
   * of this model, would be needed.
   */
  ghost predicate Processable(c: Clique, complex: seq<Clique>)
  {
    c.k.Some? && (c.Dim() == 0 || (c.Dim() == 1 && |Faces(c, complex)| == 2))
  }

  /**
   * The face whose class has fewer representatives, the first on a tie (the
   * sort is stable), and the other one.
   */
  function SmallLarge(faces: seq<Clique>, dict: map<Clique, nat>, classes: seq<HomClass>): (r: (Clique, Clique))
    requires |faces| == 2 && faces[0] in dict && faces[1] in dict
    requires dict[faces[0]] < |classes| && dict[faces[1]] < |classes|
    ensures {r.0, r.1} == {faces[0], faces[1]}
    ensures |classes[dict[r.0]].reps| <= |classes[dict[r.1]].reps|
    ensures r == (faces[0], faces[1]) ||
      (r == (faces[1], faces[0]) && |classes[dict[faces[1]]].reps| < |classes[dict[faces[0]]].reps|)
  {
    if |classes[dict[faces[1]]].reps| < |classes[dict[faces[0]]].reps| then (faces[1], faces[0])
    else (faces[0], faces[1])
  }

  /**
   * `large.representatives |= small.representatives; small.kill(k)` on the
   * classes l and m: l gains the representatives of m and m dies at k.
   */
  function Merge(classes: seq<HomClass>, l: nat, m: nat, k: nat): (r: seq<HomClass>)
    requires l < |classes| && m < |classes| && l != m
    ensures |r| == |classes|
    ensures r[l] == classes[l].(reps := classes[l].reps + classes[m].reps)
    ensures r[m] == classes[m].(death := Some(k))
    ensures forall u :: 0 <= u < |classes| && u != l && u != m ==> r[u] == classes[u]
  {
    var merged := classes[l := classes[l].(reps := classes[l].reps + classes[m].reps)];
    merged[m := merged[m].(death := Some(k))]
  }

  /**
   * The processing of one clique c at step k, one pass of the inner loop of
   * compute_persistent_homology: c gets a fresh class born at k; a vertex, or
   * an edge whose two faces share a class, is a generator of its dimension;
   * otherwise the representatives of the smaller face class join the larger,
   * the smaller is killed at k and every clique of the smaller class is moved
   * to the larger.  A generator list that is missing raises IndexError and a
   * face without a class raises KeyError.
   */
  function Step(s: Tracker, c: Clique, k: nat, complex: seq<Clique>): (r: Result<Tracker>)
    requires WellFormed(s) && Processable(c, complex)
    ensures r.Err? ==> r.error == IndexError || r.error == KeyError
    ensures r.Ok? ==> WellFormed(r.value)
    ensures r.Ok? ==> |r.value.classes| == |s.classes| + 1 && |r.value.generators| == |s.generators|
    ensures r.Ok? ==> r.value.classes[|s.classes|].birth == k && r.value.classes[|s.classes|].dim == c.Dim()
    ensures r.Ok? ==> r.value.dict.Keys == s.dict.Keys + {c}
    ensures r.Ok? ==> forall u :: 0 <= u < |s.classes| ==>
      r.value.classes[u].dim == s.classes[u].dim && r.value.classes[u].birth == s.classes[u].birth
  {
    var a := Fresh(s, c, k);
    if c.Dim() == 0 then
      if |s.generators| < 1 then Err(IndexError)
      else Ok(a.(generators := s.generators[0 := s.generators[0] + [|s.classes|]]))
    else
      var faces := Faces(c, complex);
      if faces[0] !in a.dict || faces[1] !in a.dict then Err(KeyError)
      else if a.dict[faces[0]] == a.dict[faces[1]] then
        if |s.generators| < 2 then Err(IndexError)
        else Ok(a.(generators := s.generators[1 := s.generators[1] + [|s.classes|]]))
      else
        var (small, large) := SmallLarge(faces, a.dict, a.classes);
        Ok(a.(dict := Assign(a.dict, small, a.dict[large]), classes := Merge(a.classes, a.dict[large], a.dict[small], k)))
  }

  /** Step on a vertex: a generator of dimension 0, or IndexError without a generator list. */
  lemma StepOfVertex(s: Tracker, c: Clique, k: nat, complex: seq<Clique>)
    requires WellFormed(s) && Processable(c, complex) && c.Dim() == 0
    ensures Step(s, c, k, complex) == if |s.generators| < 1 then Err(IndexError)
      else Ok(Fresh(s, c, k).(generators := s.generators[0 := s.generators[0] + [|s.classes|]]))
  {
  }

  /** Step on an edge, by the classes its two faces have once the edge has its own. */
  lemma StepOfEdge(s: Tracker, c: Clique, k: nat, complex: seq<Clique>)
    requires WellFormed(s) && Processable(c, complex) && c.Dim() != 0
    ensures var a, faces := Fresh(s, c, k), Faces(c, complex);
      Step(s, c, k, complex) ==
        if faces[0] !in a.dict || faces[1] !in a.dict then Err(KeyError)
        else if a.dict[faces[0]] == a.dict[faces[1]] then
          if |s.generators| < 2 then Err(IndexError)
          else Ok(a.(generators := s.generators[1 := s.generators[1] + [|s.classes|]]))
        else
          var (small, large) := SmallLarge(faces, a.dict, a.classes);
          Ok(a.(dict := Assign(a.dict, small, a.dict[large]), classes := Merge(a.classes, a.dict[large], a.dict[small], k)))
  {
  }

  /**
   * `c` gets a class of its own, the next one, born at k and representing its
   * points, before any generator or merge is considered.
   */
  function Fresh(s: Tracker, c: Clique, k: nat): (r: Tracker)
    requires WellFormed(s)
    ensures WellFormed(r) && r.generators == s.generators
    ensures r.dict.Keys == s.dict.Keys + {c} && r.dict[c] == |s.classes|
    ensures |r.classes| == |s.classes| + 1 && r.classes[..|s.classes|] == s.classes
    ensures r.classes[|s.classes|] == HomClass(c.Dim(), Elems(c.points), k, None)
  {
    Tracker(Assign(s.dict, c, |s.classes|), s.classes + [HomClass(c.Dim(), Elems(c.points), k, None)], s.generators)
  }

  /** Class u, which existed before, has a different death afterwards. */
  ghost predicate Killed(before: seq<HomClass>, after: seq<HomClass>, u: nat)
  {
    u < |before| && u < |after| && after[u].death != before[u].death
  }

  /**
   * One Step kills at most one of the classes that existed before it, only
   * when the clique is an edge, and at the step k of that clique.
   */
  lemma StepKillsAtMostOne(s: Tracker, c: Clique, k: nat, complex: seq<Clique>)
    requires WellFormed(s) && Processable(c, complex) && Step(s, c, k, complex).Ok?
    ensures var r := Step(s, c, k, complex).value;
      forall u: nat :: Killed(s.classes, r.classes, u) ==> c.Dim() == 1 && r.classes[u].death == Some(k)
    ensures var r := Step(s, c, k, complex).value;
      forall u: nat, v: nat :: Killed(s.classes, r.classes, u) && Killed(s.classes, r.classes, v) ==> u == v
  {
    var a := Fresh(s, c, k);
    if c.Dim() == 0 {
      StepOfVertex(s, c, k, complex);
      NoKills(s.classes, a.classes);
    } else {
      StepOfEdge(s, c, k, complex);
      var faces := Faces(c, complex);
      if a.dict[faces[0]] == a.dict[faces[1]] {
        NoKills(s.classes, a.classes);
      } else {
        var (small, large) := SmallLarge(faces, a.dict, a.classes);
        MergeKillsOne(s.classes, a.classes, a.dict[large], a.dict[small], k);
      }
    }
  }

  /**
   * The generator lists after one Step: a vertex's new class is appended to
   * generators[0]; an edge's new class is appended to generators[1] exactly when
   * its two faces already share a class (their sum is zero); nothing else is
   * ever appended, and the other lists do not change.
   */
  lemma StepGenerators(s: Tracker, c: Clique, k: nat, complex: seq<Clique>)
    requires WellFormed(s) && Processable(c, complex) && Step(s, c, k, complex).Ok?
    ensures var r, n := Step(s, c, k, complex).value, |s.classes|;
      forall d :: 0 <= d < |s.generators| ==> r.generators[d] == s.generators[d] || r.generators[d] == s.generators[d] + [n]
    ensures var r, n := Step(s, c, k, complex).value, |s.classes|;
      c.Dim() == 0 ==> 1 <= |s.generators| && r.generators == s.generators[0 := s.generators[0] + [n]]
    ensures var r, n, a, f := Step(s, c, k, complex).value, |s.classes|, Fresh(s, c, k), Faces(c, complex);
      c.Dim() != 0 ==> (
        && |f| == 2 && f[0] in a.dict && f[1] in a.dict
        && (a.dict[f[0]] == a.dict[f[1]] ==> 2 <= |s.generators| && r.generators == s.generators[1 := s.generators[1] + [n]])
        && (a.dict[f[0]] != a.dict[f[1]] ==> r.generators == s.generators))
  {
    if c.Dim() == 0 {
      StepOfVertex(s, c, k, complex);
    } else {
      StepOfEdge(s, c, k, complex);
    }
  }

  /** Classes that are only appended to kill nothing. */
  lemma NoKills(before: seq<HomClass>, after: seq<HomClass>)
    requires |before| <= |after| && after[..|before|] == before
    ensures forall u: nat :: !Killed(before, after, u)
  {
    forall u: nat | u < |before| ensures after[u] == before[u] {
      assert after[u] == after[..|before|][u];
    }
  }

  /** A merge into l of m kills m, at k, and nothing else. */
  lemma MergeKillsOne(before: seq<HomClass>, classes: seq<HomClass>, l: nat, m: nat, k: nat)
    requires |before| <= |classes| && classes[..|before|] == before
    requires l < |classes| && m < |classes| && l != m
    ensures forall u: nat :: Killed(before, Merge(classes, l, m, k), u) ==> u == m && Merge(classes, l, m, k)[u].death == Some(k)
  {
    NoKills(before, classes);
  }

  /**
   * The tracker after processing the cliques of `todo` in order, each at its
   * own step, which on a sorted complex is what the two loops over k and over
   * `self[k]` do.
   */
  function Run(s: Tracker, todo: seq<Clique>, complex: seq<Clique>): (r: Result<Tracker>)
    requires WellFormed(s)
    requires forall c :: c in todo ==> Processable(c, complex)
    ensures r.Ok? ==> WellFormed(r.value)
    ensures r.Ok? ==> |r.value.classes| == |s.classes| + |todo| && |r.value.generators| == |s.generators|
    ensures r.Ok? ==> r.value.dict.Keys == s.dict.Keys + Elems(todo)
    ensures r.Err? ==> r.error == IndexError || r.error == KeyError
    decreases |todo|
  {
    if todo == [] then Ok(s)
    else
      var init, last := todo[..|todo| - 1], todo[|todo| - 1];
      assert todo == init + [last] && last in todo;
      assert forall c :: c in init ==> c in todo;
      assert Elems(todo) == Elems(init) + {last};
      assert Processable(last, complex);
      match Run(s, init, complex)
      case Err(e) => Err(e)
      case Ok(s') => Step(s', last, last.k.value, complex)
  }

  /** The vertices lo .. n-1, in index order. */
  function VerticesFrom(lo: nat, n: nat): (r: seq<Clique>)
    requires lo <= n
    ensures |r| == n - lo
    ensures forall x :: 0 <= x < n - lo ==> r[x] == Singleton(lo + x)
  {
    seq(n - lo, x requires 0 <= x < n - lo => Singleton(lo + x))
  }

  /** Among the vertices lo .. n-1, the faces of the edge [i, j] are vertex i, then vertex j. */
  lemma {:induction false} FilterVertices(lo: nat, n: nat, i: nat, j: nat)
    requires lo <= n && i < j < n
    ensures FilterFaces(VerticesFrom(lo, n), [[j], [i]]) ==
      (if lo <= i then [Singleton(i)] else []) + (if lo <= j then [Singleton(j)] else [])
    decreases n - lo
  {
    var fs := VerticesFrom(lo, n);
    if lo < n {
      assert fs[1..] == VerticesFrom(lo + 1, n);
      FilterVertices(lo + 1, n, i, j);
      assert fs[0].points == [lo];
    } else {
      assert fs == [];
    }
  }

  /** In a built complex, the faces of the edge [i, j] are the vertices i and j, in that order. */
  lemma FacesOfEdge(complex: seq<Clique>, order: seq<seq<nat>>, t: nat)
    requires Built(complex, order) && |order| <= t < |complex|
    ensures Faces(complex[t], complex) == [Singleton(complex[t].points[0]), Singleton(complex[t].points[1])]
  {
    var c := complex[t];
    BuiltEdgeAt(complex, order, t);
    var i, j := c.points[0], c.points[1];
    assert c.points == [i, j];
    EdgeFacePoints(i, j);
    FacesFilter(c, complex);
    EdgeFaceFilter(complex, order, i, j);
  }

  /** The faces of a clique of two or more points, as a filter on the point lists. */
  lemma FacesFilter(c: Clique, complex: seq<Clique>)
    requires c.Dim() != 0
    ensures Faces(c, complex) == FilterFaces(complex, FacePoints(c.points))
  {
  }

  /** In a built complex, the members with point list [j] or [i] are vertex i, then vertex j. */
  lemma EdgeFaceFilter(complex: seq<Clique>, order: seq<seq<nat>>, i: nat, j: nat)
    requires Built(complex, order) && i < j < |order|
    ensures FilterFaces(complex, [[j], [i]]) == [Singleton(i), Singleton(j)]
  {
    var n := |order|;
    BuiltSplits(complex, order);
    FilterVertices(0, n, i, j);
    NoEdgeIsAFace(complex, order, [[j], [i]]);
    FilterSplit(complex, VerticesFrom(0, n), complex[n..], [[j], [i]], [Singleton(i), Singleton(j)]);
  }

  /** Filtering a list made of two parts, the second of which contributes nothing. */
  lemma FilterSplit(fs: seq<Clique>, front: seq<Clique>, back: seq<Clique>, targets: seq<seq<nat>>, found: seq<Clique>)
    requires fs == front + back && FilterFaces(front, targets) == found && FilterFaces(back, targets) == []
    ensures FilterFaces(fs, targets) == found
  {
    FilterFacesAppend(front, back, targets);
    assert found + [] == found;
  }

  /** A built complex is its vertices followed by its edges. */
  lemma BuiltSplits(complex: seq<Clique>, order: seq<seq<nat>>)
    requires Built(complex, order)
    ensures complex == VerticesFrom(0, |order|) + complex[|order|..]
  {
  }

  /** The face point lists of an edge [i, j]: [j], then [i]. */
  lemma EdgeFacePoints(i: nat, j: nat)
    requires i != j
    ensures FacePoints([i, j]) == [[j], [i]]
  {
    assert Without([i, j], i) == [j];
    assert Without([i, j], j) == [i];
  }

  /** No edge of a built complex has a one-point list. */
  lemma NoEdgeIsAFace(complex: seq<Clique>, order: seq<seq<nat>>, targets: seq<seq<nat>>)
    requires Built(complex, order)
    requires forall l :: l in targets ==> |l| == 1
    ensures FilterFaces(complex[|order|..], targets) == []
  {
    var n := |order|;
    var edges := complex[n..];
    forall f | f in edges ensures f.points !in targets {
      var u :| 0 <= u < |edges| && edges[u] == f;
      BuiltEdgeAt(complex, order, n + u);
      assert |f.points| == 2;
    }
    FilterNothing(edges, targets);
  }

  /** Filtering keeps nothing when no list matches. */
  lemma FilterNothing(fs: seq<Clique>, targets: seq<seq<nat>>)
    requires forall f :: f in fs ==> f.points !in targets
    ensures FilterFaces(fs, targets) == []
  {
    var r := FilterFaces(fs, targets);
    assert forall t :: 0 <= t < |r| ==> r[t] in r;
  }

  /** Every member of a built complex is a clique the tracker handles. */
  lemma BuiltProcessable(complex: seq<Clique>, order: seq<seq<nat>>)
    requires Built(complex, order)
    ensures forall c :: c in complex ==> Processable(c, complex)
  {
    forall t | 0 <= t < |complex| ensures Processable(complex[t], complex) {
      if |order| <= t {
        BuiltEdgeAt(complex, order, t);
        FacesOfEdge(complex, order, t);
      }
    }
  }

  /** The ids 0 .. n-1 in order. */
  function Range(n: nat): (r: seq<nat>)
    ensures |r| == n && forall x :: 0 <= x < n ==> r[x] == x
  {
    seq(n, x requires 0 <= x < n => x)
  }

  /** The vertices below m that the class map sends to class u. */
  ghost function Members(dict: map<Clique, nat>, u: nat, m: nat): set<nat>
  {
    set y: nat | y < m && Singleton(y) in dict && dict[Singleton(y)] == u
  }

  /** The smaller of t and n: the number of vertices among the first t members. */
  function Low(t: nat, n: nat): nat
  {
    if t < n then t else n
  }

  /** One class per processed clique, with its dimension and its k as birth; the processed cliques are the keys. */
  ghost predicate Counted(s: Tracker, complex: seq<Clique>, t: nat)
    requires t <= |complex|
  {
    && |s.classes| == t
    && s.dict.Keys == Elems(complex[..t])
    && forall u :: 0 <= u < t ==> s.classes[u].dim == complex[u].Dim() && complex[u].k == Some(s.classes[u].birth)
  }

  /** Every processed edge keeps its own class, alive, representing its two points. */
  ghost predicate EdgesOwnClass(s: Tracker, complex: seq<Clique>, n: nat, t: nat)
    requires t <= |complex| && |s.classes| == t
  {
    forall u :: n <= u < t ==>
      complex[u] in s.dict && s.dict[complex[u]] == u &&
      s.classes[u].reps == Elems(complex[u].points) && s.classes[u].death == None
  }

  /** Each of the first m vertices maps to a live class among the first m. */
  ghost predicate VerticesAlive(s: Tracker, m: nat)
    requires m <= |s.classes|
  {
    forall x :: 0 <= x < m ==>
      Singleton(x) in s.dict && s.dict[Singleton(x)] < m && s.classes[s.dict[Singleton(x)]].death == None
  }

  /** A live vertex class represents exactly the vertices mapped to it. */
  ghost predicate Components(s: Tracker, m: nat)
    requires m <= |s.classes|
  {
    forall u :: 0 <= u < m && s.classes[u].death == None ==> s.classes[u].reps == Members(s.dict, u, m)
  }

  /** Only vertex classes die, and never before they are born. */
  ghost predicate DeathsAfterBirths(s: Tracker, m: nat)
  {
    forall u :: 0 <= u < |s.classes| && s.classes[u].death.Some? ==>
      u < m && s.classes[u].birth <= s.classes[u].death.value
  }

  /** generators[0] lists the vertex classes, generators[1] only edge classes, the rest nothing. */
  ghost predicate GeneratorLists(s: Tracker, n: nat, t: nat, g: nat)
  {
    && 2 <= g && |s.generators| == g
    && s.generators[0] == Range(Low(t, n))
    && (forall x :: 0 <= x < |s.generators[1]| ==> n <= s.generators[1][x] < t)
    && forall d :: 2 <= d < g ==> s.generators[d] == []
  }

  /**
   * The tracker after the first t members of a complex whose first n members
   * are the vertices and whose other members are edges, with g generator lists.
   */
  ghost predicate Tracked(s: Tracker, complex: seq<Clique>, n: nat, t: nat, g: nat)
    requires n <= |complex| && t <= |complex|
  {
    && Counted(s, complex, t)
    && EdgesOwnClass(s, complex, n, t)
    && VerticesAlive(s, Low(t, n))
    && Components(s, Low(t, n))
    && DeathsAfterBirths(s, Low(t, n))
    && GeneratorLists(s, n, t, g)
  }

  /** Nothing processed yet. */
  lemma TrackedInitial(complex: seq<Clique>, n: nat, g: nat)
    requires n <= |complex| && 2 <= g
    ensures Tracked(Initial(g), complex, n, 0, g)
  {
    assert complex[..0] == [];
  }

  /** The vertices come first, in index order. */
  ghost predicate VerticesFirst(complex: seq<Clique>, n: nat)
  {
    n <= |complex| && forall x :: 0 <= x < n ==> complex[x] == Singleton(x)
  }

  /** After the vertices come edges [i, j] with i < j < n and k >= 1. */
  ghost predicate EdgesAfter(complex: seq<Clique>, n: nat)
  {
    forall u :: n <= u < |complex| ==>
      |complex[u].points| == 2 && complex[u].points[0] < complex[u].points[1] < n &&
      complex[u].k.Some? && 1 <= complex[u].k.value
  }

  /** No member occurs twice. */
  ghost predicate Unrepeated(complex: seq<Clique>)
  {
    forall a, b :: 0 <= a < b < |complex| ==> complex[a] != complex[b]
  }

  /** The faces of edge [i, j] are vertex i, then vertex j. */
  ghost predicate EdgeFaces(complex: seq<Clique>, n: nat)
  {
    forall u :: n <= u < |complex| && |complex[u].points| == 2 ==>
      Faces(complex[u], complex) == [Singleton(complex[u].points[0]), Singleton(complex[u].points[1])]
  }

  /** What the tracker relies on in a built complex of n vertices. */
  ghost predicate Layout(complex: seq<Clique>, n: nat)
  {
    VerticesFirst(complex, n) && EdgesAfter(complex, n) && Unrepeated(complex) && EdgeFaces(complex, n)
  }

  /** A built complex has the layout the tracker relies on. */
  lemma BuiltLayout(complex: seq<Clique>, order: seq<seq<nat>>)
    requires Built(complex, order)
    ensures Layout(complex, |order|)
    ensures forall c :: c in complex ==> Processable(c, complex)
  {
    BuiltDistinct(complex, order);
    BuiltProcessable(complex, order);
    forall u | |order| <= u < |complex| && |complex[u].points| == 2
      ensures Faces(complex[u], complex) == [Singleton(complex[u].points[0]), Singleton(complex[u].points[1])]
    {
      FacesOfEdge(complex, order, u);
    }
    forall u | |order| <= u < |complex| ensures 1 <= complex[u].k.value {
      BuiltEdgeAt(complex, order, u);
    }
  }

  /** A tracked state maps every clique to an existing class. */
  lemma TrackedWellFormed(s: Tracker, complex: seq<Clique>, n: nat, g: nat, t: nat)
    requires VerticesFirst(complex, n) && t <= |complex| && Tracked(s, complex, n, t, g)
    ensures WellFormed(s)
  {
    forall c | c in s.dict ensures s.dict[c] < |s.classes| {
      var u :| 0 <= u < t && complex[..t][u] == c;
      assert complex[u] == c;
    }
  }

  /** The next member of the complex has not been processed yet. */
  lemma NextIsFresh(s: Tracker, complex: seq<Clique>, t: nat)
    requires Unrepeated(complex) && t < |complex| && Counted(s, complex, t)
    ensures complex[t] !in s.dict
  {
    assert complex[t] !in complex[..t];
  }

  /** Processing never changes the births and dimensions of earlier classes, so Counted carries over. */
  lemma StepCounted(s: Tracker, s': Tracker, complex: seq<Clique>, t: nat)
    requires t < |complex| && Counted(s, complex, t)
    requires |s'.classes| == t + 1 && s'.dict.Keys == s.dict.Keys + {complex[t]}
    requires s'.classes[t].dim == complex[t].Dim() && complex[t].k == Some(s'.classes[t].birth)
    requires forall u :: 0 <= u < t ==> s'.classes[u].dim == s.classes[u].dim && s'.classes[u].birth == s.classes[u].birth
    ensures Counted(s', complex, t + 1)
  {
    assert complex[..t + 1] == complex[..t] + [complex[t]];
  }

  /** Processing a vertex keeps the tracker invariant. */
  lemma VertexStep(s: Tracker, complex: seq<Clique>, n: nat, g: nat, t: nat)
    requires Layout(complex, n) && t < n && Tracked(s, complex, n, t, g)
    requires Processable(complex[t], complex)
    ensures WellFormed(s)
    ensures Step(s, complex[t], 0, complex).Ok?
    ensures Tracked(Step(s, complex[t], 0, complex).value, complex, n, t + 1, g)
  {
    TrackedWellFormed(s, complex, n, g, t);
    NextIsFresh(s, complex, t);
    VertexStepIs(s, complex[t], t, complex);
    VertexTracked(s, complex, n, g, t);
  }

  /** The invariant after a vertex step, from the state it makes. */
  lemma VertexTracked(s: Tracker, complex: seq<Clique>, n: nat, g: nat, t: nat)
    requires VerticesFirst(complex, n) && t < n && Tracked(s, complex, n, t, g)
    requires complex[t] !in s.dict
    ensures Tracked(Tracker(s.dict[complex[t] := t], s.classes + [HomClass(0, {t}, 0, None)],
      s.generators[0 := s.generators[0] + [t]]), complex, n, t + 1, g)
  {
    var s' := Tracker(s.dict[complex[t] := t], s.classes + [HomClass(0, {t}, 0, None)],
      s.generators[0 := s.generators[0] + [t]]);
    StepCounted(s, s', complex, t);
    VertexClasses(s, s'.generators, complex, n, t);
    VertexGenerators(s, s', n, t, g);
    assert Low(t + 1, n) == t + 1;
    assert EdgesOwnClass(s', complex, n, t + 1);
  }

  /** A vertex step appends the vertex to generators[0] and leaves the other lists alone. */
  lemma VertexGenerators(s: Tracker, s': Tracker, n: nat, t: nat, g: nat)
    requires t < n && GeneratorLists(s, n, t, g)
    requires s'.generators == s.generators[0 := s.generators[0] + [t]]
    ensures GeneratorLists(s', n, t + 1, g)
  {
    assert Low(t, n) == t && Low(t + 1, n) == t + 1;
    assert s'.generators[0] == Range(t + 1);
  }

  /** A fresh vertex gets a class of its own and is listed in generators[0]. */
  lemma VertexStepIs(s: Tracker, c: Clique, t: nat, complex: seq<Clique>)
    requires WellFormed(s) && c == Singleton(t) && c !in s.dict && t == |s.classes| && 1 <= |s.generators|
    requires Processable(c, complex)
    ensures Step(s, c, 0, complex) ==
      Ok(Tracker(s.dict[c := t], s.classes + [HomClass(0, {t}, 0, None)], s.generators[0 := s.generators[0] + [t]]))
  {
    assert Assign(s.dict, c, t) == s.dict[c := t];
    assert Elems(c.points) == {t};
  }

  /** After a vertex step the first t+1 vertices are alive and form their components. */
  lemma VertexClasses(s: Tracker, gens: seq<seq<nat>>, complex: seq<Clique>, n: nat, t: nat)
    requires VerticesFirst(complex, n) && t < n && |s.classes| == t
    requires VerticesAlive(s, t) && Components(s, t) && DeathsAfterBirths(s, t)
    requires complex[t] !in s.dict
    ensures var s' := Tracker(s.dict[complex[t] := t], s.classes + [HomClass(0, {t}, 0, None)], gens);
      VerticesAlive(s', t + 1) && Components(s', t + 1) && DeathsAfterBirths(s', t + 1)
  {
    var c := complex[t];
    var dict' := s.dict[c := t];
    var s' := Tracker(dict', s.classes + [HomClass(0, {t}, 0, None)], gens);
    forall u | 0 <= u < t + 1 && s'.classes[u].death == None ensures s'.classes[u].reps == Members(dict', u, t + 1) {
      if u < t {
        assert Members(dict', u, t + 1) == Members(s.dict, u, t);
      } else {
        assert Members(dict', u, t + 1) == {t};
      }
    }
  }

  /** The edge [i, j] at position t is fresh, and its faces are the vertices i and j. */
  lemma EdgeFacts(s: Tracker, complex: seq<Clique>, n: nat, g: nat, t: nat)
    requires Layout(complex, n) && n <= t < |complex| && Tracked(s, complex, n, t, g)
    ensures WellFormed(s) && complex[t] !in s.dict
    ensures Faces(complex[t], complex) == [Singleton(complex[t].points[0]), Singleton(complex[t].points[1])]
    ensures complex[t].points[0] < complex[t].points[1] < n && complex[t].k.Some? && 1 <= complex[t].k.value
    ensures Singleton(complex[t].points[0]) in s.dict && Singleton(complex[t].points[1]) in s.dict
    ensures s.dict[Singleton(complex[t].points[0])] < n && s.dict[Singleton(complex[t].points[1])] < n
    ensures complex[t] != Singleton(complex[t].points[0]) && complex[t] != Singleton(complex[t].points[1])
  {
    TrackedWellFormed(s, complex, n, g, t);
    NextIsFresh(s, complex, t);
  }

  /**
   * An edge whose endpoints share a class gets a class of its own, which is
   * listed in generators[1].
   */
  lemma EdgeSameTracked(s: Tracker, complex: seq<Clique>, n: nat, g: nat, t: nat)
    requires n <= t < |complex| && Tracked(s, complex, n, t, g)
    requires complex[t] !in s.dict && complex[t].k.Some?
    requires complex[t].Dim() == 1 && forall x :: 0 <= x < n ==> Singleton(x) != complex[t]
    ensures var c := complex[t];
      Tracked(Tracker(s.dict[c := t], s.classes + [HomClass(1, Elems(c.points), c.k.value, None)],
        s.generators[1 := s.generators[1] + [t]]), complex, n, t + 1, g)
  {
    var c := complex[t];
    var s' := Tracker(s.dict[c := t], s.classes + [HomClass(1, Elems(c.points), c.k.value, None)],
      s.generators[1 := s.generators[1] + [t]]);
    StepCounted(s, s', complex, t);
    EdgeKeepsVertices(s, s', n);
    NewEdgeOwnClass(s, s', complex, n, t);
    SameEdgeGenerators(s, s', n, t, g);
    assert Low(t, n) == n && Low(t + 1, n) == n;
  }

  /** The edge just processed has its own fresh class; the earlier edges keep theirs. */
  lemma NewEdgeOwnClass(s: Tracker, s': Tracker, complex: seq<Clique>, n: nat, t: nat)
    requires n <= t < |complex| && Counted(s, complex, t) && EdgesOwnClass(s, complex, n, t)
    requires complex[t] !in s.dict
    requires s'.dict == s.dict[complex[t] := t] && |s'.classes| == t + 1 && s'.classes[..t] == s.classes
    requires s'.classes[t].reps == Elems(complex[t].points) && s'.classes[t].death == None
    ensures EdgesOwnClass(s', complex, n, t + 1)
  {
    forall u | n <= u < t ensures complex[u] != complex[t] && s'.classes[u] == s.classes[u] {
      assert complex[u] in complex[..t];
      assert s'.classes[..t][u] == s'.classes[u];
    }
  }

  /** An edge whose faces share a class is appended to generators[1]. */
  lemma SameEdgeGenerators(s: Tracker, s': Tracker, n: nat, t: nat, g: nat)
    requires n <= t && GeneratorLists(s, n, t, g)
    requires s'.generators == s.generators[1 := s.generators[1] + [t]]
    ensures GeneratorLists(s', n, t + 1, g)
  {
  }

  /** The state after an edge whose two faces share a class. */
  lemma EdgeStepIsSame(s: Tracker, c: Clique, t: nat, complex: seq<Clique>)
    requires WellFormed(s) && c !in s.dict && t == |s.classes| && 2 <= |s.generators|
    requires Processable(c, complex) && |c.points| == 2
    requires Faces(c, complex) == [Singleton(c.points[0]), Singleton(c.points[1])]
    requires Singleton(c.points[0]) in s.dict && Singleton(c.points[1]) in s.dict
    requires c != Singleton(c.points[0]) && c != Singleton(c.points[1])
    requires s.dict[Singleton(c.points[0])] == s.dict[Singleton(c.points[1])]
    ensures Step(s, c, c.k.value, complex) ==
      Ok(Tracker(s.dict[c := t], s.classes + [HomClass(1, Elems(c.points), c.k.value, None)],
        s.generators[1 := s.generators[1] + [t]]))
  {
    assert Assign(s.dict, c, t) == s.dict[c := t];
  }

  /** A step that only adds the edge leaves the vertex classes as they were. */
  lemma EdgeKeepsVertices(s: Tracker, s': Tracker, n: nat)
    requires n <= |s.classes| < |s'.classes|
    requires VerticesAlive(s, n) && Components(s, n) && DeathsAfterBirths(s, n)
    requires forall u :: 0 <= u < |s.classes| ==> s'.classes[u] == s.classes[u]
    requires s'.classes[|s.classes|].death == None && |s'.classes| == |s.classes| + 1
    requires forall x :: 0 <= x < n ==> Singleton(x) in s'.dict && s'.dict[Singleton(x)] == s.dict[Singleton(x)]
    ensures VerticesAlive(s', n) && Components(s', n) && DeathsAfterBirths(s', n)
  {
    forall u | 0 <= u < n ensures Members(s'.dict, u, n) == Members(s.dict, u, n) {
    }
  }

  /** The state after an edge whose two faces have different classes. */
  lemma EdgeStepIsMerge(s: Tracker, c: Clique, t: nat, complex: seq<Clique>)
    requires WellFormed(s) && c !in s.dict && t == |s.classes|
    requires Processable(c, complex) && |c.points| == 2
    requires Faces(c, complex) == [Singleton(c.points[0]), Singleton(c.points[1])]
    requires Singleton(c.points[0]) in s.dict && Singleton(c.points[1]) in s.dict
    requires c != Singleton(c.points[0]) && c != Singleton(c.points[1])
    requires s.dict[Singleton(c.points[0])] != s.dict[Singleton(c.points[1])]
    ensures var dict := s.dict[c := t];
      var classes := s.classes + [HomClass(1, Elems(c.points), c.k.value, None)];
      var (small, large) := SmallLarge([Singleton(c.points[0]), Singleton(c.points[1])], dict, classes);
      Step(s, c, c.k.value, complex) ==
        Ok(Tracker(Assign(dict, small, dict[large]), Merge(classes, dict[large], dict[small], c.k.value), s.generators))
  {
    var dict := s.dict[c := t];
    assert Assign(s.dict, c, t) == dict;
    var faces := Faces(c, complex);
    assert faces[0] in dict && faces[1] in dict && dict[faces[0]] != dict[faces[1]];
    var r := Step(s, c, c.k.value, complex);
    assert r.Ok?;
    assert r.value.generators == s.generators;
    var classes := s.classes + [HomClass(1, Elems(c.points), c.k.value, None)];
    var (small, large) := SmallLarge(faces, dict, classes);
    assert r.value.dict == Assign(dict, small, dict[large]);
    assert r.value.classes == Merge(classes, dict[large], dict[small], c.k.value);
  }

  /**
   * The invariant after a merge: the class m of the smaller face dies at k and
   * every clique of m moves to the class l of the larger face, which gains m's
   * representatives.
   */
  lemma MergeTrackedFrom(s: Tracker, s': Tracker, complex: seq<Clique>, n: nat, g: nat, t: nat, l: nat, m: nat)
    requires VerticesFirst(complex, n) && n <= t < |complex| && Tracked(s, complex, n, t, g)
    requires complex[t] !in s.dict && complex[t].k.Some? && complex[t].Dim() == 1 && l < n && m < n
    requires s.classes[l].death == None && s.classes[m].death == None
    requires Merged(s, s', complex[t], t, l, m, complex[t].k.value)
    ensures Tracked(s', complex, n, t + 1, g)
  {
    var k := complex[t].k.value;
    MergeCounted(s, s', complex, t, l, m);
    MergeEdges(s, s', complex, n, t, l, m);
    assert complex[m] == Singleton(m);
    MergeVertices(s, s', complex[t], n, t, l, m, k);
    MergeGenerators(s, s', n, t, g);
    assert Low(t, n) == n && Low(t + 1, n) == n;
  }

  /**
   * s' is s after the edge c at position t joined class m into class l at k:
   * described clique by clique and class by class.
   */
  ghost predicate Merged(s: Tracker, s': Tracker, c: Clique, t: nat, l: nat, m: nat, k: nat)
  {
    && |s.classes| == t && l < t && m < t && l != m
    && s'.dict.Keys == s.dict.Keys + {c} && s'.dict[c] == t
    && (forall key :: key in s.dict ==> s'.dict[key] == if s.dict[key] == m then l else s.dict[key])
    && |s'.classes| == t + 1 && s'.classes[t] == HomClass(1, Elems(c.points), k, None)
    && s'.classes[l] == s.classes[l].(reps := s.classes[l].reps + s.classes[m].reps)
    && s'.classes[m] == s.classes[m].(death := Some(k))
    && (forall u :: 0 <= u < t && u != l && u != m ==> s'.classes[u] == s.classes[u])
    && s'.generators == s.generators
  }

  /** The merged state, described clique by clique and class by class. */
  lemma MergeState(s: Tracker, s': Tracker, c: Clique, t: nat, small: Clique, large: Clique, k: nat)
    requires WellFormed(s) && |s.classes| == t && c !in s.dict && small in s.dict && large in s.dict
    requires s.dict[small] != s.dict[large]
    requires var dict := s.dict[c := t];
      s' == Tracker(Assign(dict, small, dict[large]),
        Merge(s.classes + [HomClass(1, Elems(c.points), k, None)], dict[large], dict[small], k), s.generators)
    ensures Merged(s, s', c, t, s.dict[large], s.dict[small], k)
  {
  }

  /** A merge adds one class, born at the edge's k. */
  lemma MergeCounted(s: Tracker, s': Tracker, complex: seq<Clique>, t: nat, l: nat, m: nat)
    requires t < |complex| && complex[t].k.Some? && complex[t].Dim() == 1
    requires Counted(s, complex, t) && Merged(s, s', complex[t], t, l, m, complex[t].k.value)
    ensures Counted(s', complex, t + 1)
  {
    StepCounted(s, s', complex, t);
  }

  /** After a merge of vertex classes, every edge still has its own class. */
  lemma MergeEdges(s: Tracker, s': Tracker, complex: seq<Clique>, n: nat, t: nat, l: nat, m: nat)
    requires n <= t < |complex| && l < n && m < n && complex[t].k.Some? && complex[t] !in s.dict
    requires Counted(s, complex, t) && EdgesOwnClass(s, complex, n, t)
    requires Merged(s, s', complex[t], t, l, m, complex[t].k.value)
    ensures EdgesOwnClass(s', complex, n, t + 1)
  {
  }

  /** After a merge, the vertices are alive in their components and the killed class was a vertex class. */
  lemma MergeVertices(s: Tracker, s': Tracker, c: Clique, n: nat, t: nat, l: nat, m: nat, k: nat)
    requires n <= t && l < n && m < n && Merged(s, s', c, t, l, m, k)
    requires VerticesAlive(s, n) && Components(s, n) && DeathsAfterBirths(s, n)
    requires s.classes[l].death == None && s.classes[m].death == None && s.classes[m].birth <= k
    ensures VerticesAlive(s', n) && Components(s', n) && DeathsAfterBirths(s', n)
  {
    forall u | 0 <= u < n && u != l && u != m ensures Members(s'.dict, u, n) == Members(s.dict, u, n) {
    }
    assert Members(s'.dict, l, n) == Members(s.dict, l, n) + Members(s.dict, m, n);
  }

  /** A merge leaves the generator lists as they were. */
  lemma MergeGenerators(s: Tracker, s': Tracker, n: nat, t: nat, g: nat)
    requires n <= t && GeneratorLists(s, n, t, g) && s'.generators == s.generators
    ensures GeneratorLists(s', n, t + 1, g)
  {
  }

  /** Processing an edge keeps the tracker invariant. */
  lemma EdgeStep(s: Tracker, complex: seq<Clique>, n: nat, g: nat, t: nat)
    requires Layout(complex, n) && n <= t < |complex| && Tracked(s, complex, n, t, g)
    requires Processable(complex[t], complex)
    ensures WellFormed(s)
    ensures Step(s, complex[t], complex[t].k.value, complex).Ok?
    ensures Tracked(Step(s, complex[t], complex[t].k.value, complex).value, complex, n, t + 1, g)
  {
    EdgeFacts(s, complex, n, g, t);
    if s.dict[Singleton(complex[t].points[0])] == s.dict[Singleton(complex[t].points[1])] {
      EdgeSameStep(s, complex, n, g, t);
    } else {
      EdgeMergeStep(s, complex, n, g, t);
    }
  }

  /** An edge whose endpoints share a class keeps the tracker invariant. */
  lemma EdgeSameStep(s: Tracker, complex: seq<Clique>, n: nat, g: nat, t: nat)
    requires Layout(complex, n) && n <= t < |complex| && Tracked(s, complex, n, t, g)
    requires Processable(complex[t], complex)
    requires Singleton(complex[t].points[0]) in s.dict && Singleton(complex[t].points[1]) in s.dict
    requires s.dict[Singleton(complex[t].points[0])] == s.dict[Singleton(complex[t].points[1])]
    ensures WellFormed(s)
    ensures Step(s, complex[t], complex[t].k.value, complex).Ok?
    ensures Tracked(Step(s, complex[t], complex[t].k.value, complex).value, complex, n, t + 1, g)
  {
    EdgeFacts(s, complex, n, g, t);
    assert forall x :: 0 <= x < n ==> |Singleton(x).points| == 1;
    EdgeStepIsSame(s, complex[t], t, complex);
    EdgeSameTracked(s, complex, n, g, t);
  }

  /** An edge that joins two components keeps the tracker invariant. */
  lemma EdgeMergeStep(s: Tracker, complex: seq<Clique>, n: nat, g: nat, t: nat)
    requires Layout(complex, n) && n <= t < |complex| && Tracked(s, complex, n, t, g)
    requires Processable(complex[t], complex)
    requires Singleton(complex[t].points[0]) in s.dict && Singleton(complex[t].points[1]) in s.dict
    requires s.dict[Singleton(complex[t].points[0])] != s.dict[Singleton(complex[t].points[1])]
    ensures WellFormed(s)
    ensures Step(s, complex[t], complex[t].k.value, complex).Ok?
    ensures Tracked(Step(s, complex[t], complex[t].k.value, complex).value, complex, n, t + 1, g)
  {
    EdgeFacts(s, complex, n, g, t);
    var c := complex[t];
    EdgeStepIsMerge(s, c, t, complex);
    var f0, f1 := Singleton(c.points[0]), Singleton(c.points[1]);
    var dict := s.dict[c := t];
    var classes := s.classes + [HomClass(1, Elems(c.points), c.k.value, None)];
    var (small, large) := SmallLarge([f0, f1], dict, classes);
    assert small in {f0, f1} && large in {f0, f1};
    assert VerticesAlive(s, n);
    assert forall x :: 0 <= x < n ==> |Singleton(x).points| == 1;
    var s' := Tracker(Assign(dict, small, dict[large]), Merge(classes, dict[large], dict[small], c.k.value), s.generators);
    MergeState(s, s', c, t, small, large, c.k.value);
    MergeTrackedFrom(s, s', complex, n, g, t, s.dict[large], s.dict[small]);
  }

  /** Processing the next member, vertex or edge, keeps the tracker invariant. */
  lemma TrackedStep(s: Tracker, complex: seq<Clique>, n: nat, g: nat, t: nat)
    requires Layout(complex, n) && t < |complex| && Tracked(s, complex, n, t, g)
    requires Processable(complex[t], complex)
    ensures WellFormed(s)
    ensures Step(s, complex[t], complex[t].k.value, complex).Ok?
    ensures Tracked(Step(s, complex[t], complex[t].k.value, complex).value, complex, n, t + 1, g)
  {
    if t < n {
      assert complex[t].k.value == 0;
      VertexStep(s, complex, n, g, t);
    } else {
      EdgeStep(s, complex, n, g, t);
    }
  }

  /**
   * Processing the first t members of a laid-out complex in order succeeds and
   * leaves the tracker invariant holding.
   */
  lemma {:induction false} RunTracked(complex: seq<Clique>, n: nat, g: nat, t: nat)
    requires Layout(complex, n) && 2 <= g && t <= |complex|
    requires forall c :: c in complex ==> Processable(c, complex)
    ensures Run(Initial(g), complex[..t], complex).Ok?
    ensures Tracked(Run(Initial(g), complex[..t], complex).value, complex, n, t, g)
  {
    if t == 0 {
      assert complex[..0] == [];
      TrackedInitial(complex, n, g);
    } else {
      RunTracked(complex, n, g, t - 1);
      TrackedNext(complex, n, g, t - 1, t);
    }
  }

  /** One more member processed after the first u, with u + 1 written t. */
  lemma TrackedNext(complex: seq<Clique>, n: nat, g: nat, u: nat, t: nat)
    requires Layout(complex, n) && 2 <= g && t == u + 1 && t <= |complex|
    requires forall c :: c in complex ==> Processable(c, complex)
    requires forall c :: c in complex[..u] ==> Processable(c, complex)
    requires Run(Initial(g), complex[..u], complex).Ok?
    requires Tracked(Run(Initial(g), complex[..u], complex).value, complex, n, u, g)
    ensures forall c :: c in complex[..t] ==> Processable(c, complex)
    ensures Run(Initial(g), complex[..t], complex).Ok?
    ensures Tracked(Run(Initial(g), complex[..t], complex).value, complex, n, t, g)
  {
    RunNext(Initial(g), complex, u, complex[u].k.value);
    TrackedStep(Run(Initial(g), complex[..u], complex).value, complex, n, g, u);
  }

  /** Running one more clique is one more step. */
  lemma RunLast(s: Tracker, todo: seq<Clique>, c: Clique, complex: seq<Clique>)
    requires WellFormed(s) && Processable(c, complex)
    requires forall x :: x in todo ==> Processable(x, complex)
    ensures Run(s, todo, complex).Ok? ==>
      Run(s, todo + [c], complex) == Step(Run(s, todo, complex).value, c, c.k.value, complex)
    ensures Run(s, todo, complex).Err? ==> Run(s, todo + [c], complex) == Run(s, todo, complex)
  {
    assert (todo + [c])[..|todo|] == todo;
  }

  /** A prefix one longer is the shorter prefix and the next element. */
  lemma PrefixSnoc<T>(s: seq<T>, t: nat)
    requires 0 < t <= |s|
    ensures s[..t] == s[..t - 1] + [s[t - 1]] && s[t - 1] in s
    ensures forall x :: x in s[..t - 1] ==> x in s
  {
  }

  /**
   * Processing the clique at position t of the complex, after the ones before
   * it, is one more Step; when that Step fails, the whole run fails with it.
   */
  lemma RunNext(s0: Tracker, cx: seq<Clique>, t: nat, k: nat)
    requires WellFormed(s0) && forall c :: c in cx ==> Processable(c, cx)
    requires t < |cx| && cx[t].k == Some(k)
    requires forall c :: c in cx[..t] ==> Processable(c, cx)
    requires Run(s0, cx[..t], cx).Ok?
    ensures Processable(cx[t], cx)
    ensures forall c :: c in cx[..t + 1] ==> Processable(c, cx)
    ensures Run(s0, cx[..t + 1], cx) == Step(Run(s0, cx[..t], cx).value, cx[t], k, cx)
    ensures Run(s0, cx[..t + 1], cx).Err? ==> Run(s0, cx, cx) == Run(s0, cx[..t + 1], cx)
  {
    PrefixSnoc(cx, t + 1);
    RunLast(s0, cx[..t], cx[t], cx);
    RunStops(s0, cx, t + 1, cx);
  }

  /** A built complex is sorted by step, and every step is below the number of points. */
  lemma BuiltSortedByStep(complex: seq<Clique>, order: seq<seq<nat>>)
    requires Built(complex, order)
    ensures SortedByStep(complex)
    ensures forall c :: c in complex ==> c.k.Some? && c.k.value < |order|
  {
    BuiltSorted(complex, order);
  }

  /**
   * As written, build_complex calls `mknn_graph(k)` without the `verbose`
   * argument that mknn/cloud.py requires, so the first call, at k = 1, raises
   * TypeError.  With fewer than two points the loop does not run and the
   * complex is the vertices alone.
   */
  function BuildComplexAsWritten(cloud: MknnCloud.Cloud): (r: Result<seq<Clique>>)
    ensures r.Err? <==> |cloud.points| >= 2
    ensures r.Err? ==> r.error == TypeError
    ensures r.Ok? ==> r.value == Singletons(|cloud.points|)
  {
    if |cloud.points| - 1 >= 1 then Err(TypeError) else Ok(Singletons(|cloud.points|))
  }

  /** Every cloud of two or more points makes the written build_complex fail. */
  lemma BuildComplexAsWrittenFails(cloud: MknnCloud.Cloud)
    requires |cloud.points| >= 2
    ensures BuildComplexAsWritten(cloud) == Err(TypeError)
  {
  }

  /**
   * A built complex is processed without error when there are at least two
   * generator lists, and the tracker invariant holds at the end.
   */
  lemma BuiltRunTracked(complex: seq<Clique>, order: seq<seq<nat>>, g: nat)
    requires Built(complex, order) && 2 <= g
    ensures forall c :: c in complex ==> Processable(c, complex)
    ensures Run(Initial(g), complex, complex).Ok?
    ensures Tracked(Run(Initial(g), complex, complex).value, complex, |order|, |complex|, g)
  {
    BuiltLayout(complex, order);
    RunTracked(complex, |order|, g, |complex|);
    assert complex[..|complex|] == complex;
  }

  /** Once a step fails, processing more cliques returns the same error. */
  lemma {:induction false} RunStops(s: Tracker, todo: seq<Clique>, t: nat, complex: seq<Clique>)
    requires WellFormed(s) && t <= |todo|
    requires forall c :: c in todo ==> Processable(c, complex)
    ensures forall c :: c in todo[..t] ==> Processable(c, complex)
    ensures Run(s, todo[..t], complex).Err? ==> Run(s, todo, complex) == Run(s, todo[..t], complex)
    decreases |todo| - t
  {
    assert forall c :: c in todo[..t] ==> c in todo;
    if t == |todo| {
      assert todo[..t] == todo;
    } else if Run(s, todo[..t], complex).Err? {
      PrefixSnoc(todo, t + 1);
      RunLast(s, todo[..t], todo[t], complex);
      RunStops(s, todo, t + 1, complex);
    }
  }

  /**
   * The Filtration object.  `classes` stands for the HomologyClass objects the
   * run creates: the homology dictionary maps each processed clique to the index
   * of its class there, so two cliques share a class exactly when they map to
   * the same index.  `generators[d]` lists class indices.
   */
  class Filtration {
    const cloud: MknnCloud.Cloud
    /** `k_max`: the last step, one less than the number of points. */
    const kMax: int
    var complex: seq<Clique>
    var homology: HomDict<Clique, nat>
    var classes: seq<HomClass>
    var generators: seq<seq<nat>>

    /** The tracker state held by the object. */
    function State(): Tracker
      reads this, homology
    {
      Tracker(homology.dict, classes, generators)
    }

    ghost predicate Valid()
      reads this, homology
    {
      && cloud.Valid() && kMax == cloud.Size() - 1
      && homology.Valid() && WellFormed(State())
    }

    /** `Filtration(cloud)`: an empty complex, an empty homology and `dim` empty generator lists. */
    constructor (cloud: MknnCloud.Cloud)
      requires cloud.Valid()
      ensures Valid() && fresh(homology)
      ensures this.cloud == cloud && kMax == |cloud.points| - 1 && complex == []
      ensures State() == Initial(cloud.dim)
    {
      this.cloud := cloud;
      kMax := |cloud.points| - 1;
      complex := [];
      homology := new HomDict([]);
      classes := [];
      generators := seq(cloud.dim, _ => []);
    }

    /** `reset()`: a new empty homology and new empty generator lists; the old classes become unreachable. */
    method Reset()
      requires Valid()
      modifies this
      ensures Valid() && fresh(homology) && complex == old(complex)
      ensures State() == Initial(cloud.dim)
    {
      homology := new HomDict([]);
      classes := [];
      generators := seq(cloud.dim, _ => []);
    }

    /**
     * `build_complex()`, with the `verbose` argument that `mknn_graph` takes:
     * the vertices, then for k = 1 .. k_max the edges of the mutual graph at k
     * that are not yet present.
     */
    method BuildComplex()
      requires Valid() && MknnCloud.SelfFirst(cloud.order)
      modifies this
      ensures Valid() && Built(complex, cloud.order)
      ensures homology == old(homology) && classes == old(classes) && generators == old(generators)
    {
      var n := cloud.Size();
      var edges: seq<Clique> := [];
      var k := 1;
      while k <= kMax
        invariant 1 <= k && (k <= n || edges == [])
        invariant EdgesSoFar(edges, cloud.order, k)
        invariant homology == old(homology) && classes == old(classes) && generators == old(generators)
      {
        var graph := cloud.MknnGraph(k);
        GraphEdges(cloud.order, k);
        edges := UniteEdges(cloud.order, k, MknnCloud.Edges(graph.value), edges);
        k := k + 1;
      }
      BuiltFromParts(cloud.order, edges);
      complex := Singletons(n) + edges;
    }

    /**
     * One pass of the inner loop of compute_persistent_homology for the clique
     * c of step k.  On an error the clique keeps the class it was just given,
     * as in the source, where the exception is raised after that assignment.
     */
    method ProcessClique(c: Clique, k: nat) returns (r: Result<()>)
      requires Valid() && Processable(c, complex)
      modifies this, homology
      ensures Valid() && homology == old(homology) && complex == old(complex)
      ensures r.Ok? <==> Step(old(State()), c, k, complex).Ok?
      ensures r.Ok? ==> State() == Step(old(State()), c, k, complex).value
      ensures r.Err? ==> r.error == Step(old(State()), c, k, complex).error
      ensures r.Err? ==> State() == Fresh(old(State()), c, k)
    {
      ghost var s := State();
      NewClass(c, k);
      if c.Dim() == 0 {
        StepOfVertex(s, c, k, complex);
        r := AppendGenerator(0, homology.Get(c));
        return;
      }
      var faces := Faces(c, complex);
      StepOfEdge(s, c, k, complex);
      if faces[0] !in homology.dict || faces[1] !in homology.dict {
        return Err(KeyError);
      }
      if homology.Get(faces[0]) == homology.Get(faces[1]) {
        r := AppendGenerator(1, homology.Get(c));
        return;
      }
      var (small, large) := SmallLarge(faces, homology.dict, classes);
      MergeFaces(small, large, k);
      return Ok(());
    }

    /**
     * `self.homology[c] = HomologyClass(...)`: a new class for c, born at k,
     * whose representatives are c's points.
     */
    method NewClass(c: Clique, k: nat)
      requires Valid()
      modifies this, homology
      ensures Valid() && homology == old(homology) && complex == old(complex)
      ensures State() == Fresh(old(State()), c, k)
    {
      ghost var s' := Fresh(State(), c, k);
      homology.Set(c, |classes|);
      classes := classes + [HomClass(c.Dim(), Elems(c.points), k, None)];
      assert homology.dict == s'.dict && classes == s'.classes && generators == s'.generators;
    }

    /** `self.generators[d].append(x)`, an IndexError when there is no list d. */
    method AppendGenerator(d: nat, x: nat) returns (r: Result<()>)
      requires Valid()
      modifies this
      ensures Valid() && homology == old(homology) && complex == old(complex)
      ensures r.Ok? <==> d < |old(generators)|
      ensures r.Err? ==> r.error == IndexError && State() == old(State())
      ensures r.Ok? ==> State() == old(State()).(generators := old(generators)[d := old(generators)[d] + [x]])
    {
      if |generators| <= d {
        return Err(IndexError);
      }
      generators := generators[d := generators[d] + [x]];
      return Ok(());
    }

    /**
     * The merge of an edge whose faces are in different classes: the class of
     * `large` gains the representatives of the class of `small`, which dies at
     * k, and `small` with its whole class moves to the class of `large`.
     */
    method MergeFaces(small: Clique, large: Clique, k: nat)
      requires Valid() && small in homology.dict && large in homology.dict
      requires homology.dict[small] != homology.dict[large]
      modifies this, homology
      ensures Valid() && homology == old(homology) && complex == old(complex)
      ensures State() == old(State()).(
        dict := Assign(old(homology.dict), small, old(homology.dict[large])),
        classes := Merge(old(classes), old(homology.dict[large]), old(homology.dict[small]), k))
    {
      var l, m := homology.Get(large), homology.Get(small);
      classes := classes[l := classes[l].(reps := classes[l].reps + classes[m].reps)];
      classes := classes[m := classes[m].(death := Some(k))];
      homology.Set(small, l);
    }

    /**
     * `compute_persistent_homology()`: build the complex, then process the
     * cliques of `self[k]` for k = 0 .. k_max, stopping at the first error.
     */
    method ComputePersistentHomology() returns (r: Result<()>)
      requires Valid() && MknnCloud.SelfFirst(cloud.order)
      modifies this, homology
      ensures Valid() && Built(complex, cloud.order)
      ensures forall c :: c in complex ==> Processable(c, complex)
      ensures r.Ok? <==> Run(old(State()), complex, complex).Ok?
      ensures r.Ok? ==> State() == Run(old(State()), complex, complex).value
      ensures r.Err? ==> r.error == Run(old(State()), complex, complex).error
    {
      BuildComplex();
      BuiltProcessable(complex, cloud.order);
      BuiltSortedByStep(complex, cloud.order);
      r := ProcessSteps(State());
    }

    /**
     * The outer loop of compute_persistent_homology over an already sorted
     * complex: the steps k = 0 .. kMax in turn, each a run of Step over its
     * slice, stopping at the first error.
     */
    method ProcessSteps(ghost s0: Tracker) returns (r: Result<()>)
      requires Valid() && State() == s0 && SortedByStep(complex)
      requires forall c :: c in complex ==> Processable(c, complex)
      requires forall c :: c in complex ==> c.k.Some? && c.k.value < kMax + 1
      modifies this, homology
      ensures Valid() && homology == old(homology) && complex == old(complex)
      ensures r.Ok? <==> Run(s0, complex, complex).Ok?
      ensures r.Ok? ==> State() == Run(s0, complex, complex).value
      ensures r.Err? ==> r.error == Run(s0, complex, complex).error
    {
      ghost var cx := complex;
      ghost var t := PrefixBelow(cx, 0);
      assert Reached(s0, t);
      var k := 0;
      while k <= kMax
        invariant 0 <= k <= kMax + 1
        invariant complex == cx && homology == old(homology)
        invariant t == PrefixBelow(cx, k) && Reached(s0, t)
      {
        r := ProcessAt(k, t, s0);
        if r.Err? {
          return;
        }
        t := PrefixBelow(cx, k + 1);
        k := k + 1;
      }
      assert k == kMax + 1;
      PrefixBelowAll(cx, kMax + 1);
      assert t == |cx|;
      assert cx[..t] == cx;
      return Ok(());
    }

    /** One pass of the outer loop: `self[k]`, then each of its cliques in turn. */
    method ProcessAt(k: nat, ghost t: nat, ghost s0: Tracker) returns (r: Result<()>)
      requires SortedByStep(complex) && t == PrefixBelow(complex, k) && Reached(s0, t)
      modifies this, homology
      ensures Valid() && homology == old(homology) && complex == old(complex)
      ensures r.Ok? ==> Reached(s0, PrefixBelow(complex, k + 1))
      ensures r.Err? ==> Run(s0, complex, complex) == Err(r.error)
    {
      ghost var hi := PrefixBelow(complex, k + 1);
      StepSlice(complex, k, t, hi);
      var slice := AtStep(complex, k).value;
      r := ProcessStep(slice, k, t, hi, s0);
    }

    /**
     * The cliques before position t have been processed, in order, starting
     * from the state s0: the state held is the run of Step over them.
     */
    ghost predicate Reached(s0: Tracker, t: nat)
      reads this, homology
    {
      && Valid() && WellFormed(s0) && t <= |complex|
      && (forall c :: c in complex ==> Processable(c, complex))
      && (forall c :: c in complex[..t] ==> Processable(c, complex))
      && Run(s0, complex[..t], complex) == Ok(State())
    }

    /**
     * The inner loop of compute_persistent_homology, `for c in self[k]`, on
     * the cliques of step k, which sit at positions lo .. lo + |slice| - 1 of
     * the complex: each is one Step further along the run that s0 started.
     * An error ends the whole computation.
     */
    method ProcessStep(slice: seq<Clique>, k: nat, ghost lo: nat, ghost hi: nat, ghost s0: Tracker) returns (r: Result<()>)
      requires Reached(s0, lo)
      requires hi == lo + |slice| && hi <= |complex| && slice == complex[lo..hi]
      requires forall j :: 0 <= j < |slice| ==> slice[j].k == Some(k)
      modifies this, homology
      ensures Valid() && homology == old(homology) && complex == old(complex)
      ensures r.Ok? ==> Reached(s0, hi)
      ensures r.Err? ==> Run(s0, complex, complex) == Err(r.error)
    {
      ghost var cx := complex;
      ghost var t := lo;
      var j := 0;
      while j < |slice|
        invariant 0 <= j <= |slice| && t == lo + j
        invariant complex == cx && homology == old(homology)
        invariant Reached(s0, t)
      {
        assert slice[j] == cx[t];
        r := ProcessNext(slice[j], t, k, s0);
        if r.Err? {
          return;
        }
        j := j + 1;
        t := t + 1;
      }
      assert t == hi;
      return Ok(());
    }

    /**
     * One pass of the inner loop, for the clique c at position t of the
     * complex: the run from s0 through position t.
     */
    method ProcessNext(c: Clique, ghost t: nat, k: nat, ghost s0: Tracker) returns (r: Result<()>)
      requires Reached(s0, t) && t < |complex| && c == complex[t] && c.k == Some(k)
      modifies this, homology
      ensures Valid() && homology == old(homology) && complex == old(complex)
      ensures r.Ok? ==> Reached(s0, t + 1)
      ensures r.Err? ==> Run(s0, complex, complex) == Err(r.error)
    {
      RunNext(s0, complex, t, k);
      r := ProcessClique(c, k);
    }
  }
}
