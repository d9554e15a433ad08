/**
 * The cliques and GF(2) chains of mknn/clique.py, the version the persistence
 * tracker uses.  A clique is a list of point indices with the step k at which
 * it appeared and, when a distance matrix was given, its diameter.  Cliques
 * compare equal when their point sets are equal, whatever their k, diameter or
 * point order; a chain is a Python set of cliques of one dimension.
 */
module MknnClique {
  import opened Wrappers
  import PySet

  /** A clique: its points in the order given, its step k, and its diameter. */
  datatype Clique = Clique(points: seq<nat>, k: Option<nat>, diameter: Option<real>)
  {
    /** `size`: the number of points. */
    function Size(): nat
    {
      |points|
    }

    /** `dim`: one less than the number of points. */
    function Dim(): int
    {
      |points| - 1
    }
  }

  /** Every pair of positions a < b indexes the matrix. */
  predicate PairsInRange(points: seq<nat>, m: seq<seq<real>>)
  {
    && (forall a :: 0 <= a < |points| - 1 ==> points[a] < |m|)
    && (forall a, b :: 0 <= a < b < |points| ==> points[b] < |m[points[a]]|)
  }

  /** The pairs of a list without its first point stay in range. */
  lemma TailPairsInRange(points: seq<nat>, m: seq<seq<real>>)
    requires |points| > 0 && PairsInRange(points, m)
    ensures PairsInRange(points[1..], m)
  {
    var tail := points[1..];
    forall a | 0 <= a < |tail| - 1 ensures tail[a] < |m| {
      assert tail[a] == points[a + 1];
    }
    forall a, b | 0 <= a < b < |tail| ensures tail[b] < |m[tail[a]]| {
      assert tail[a] == points[a + 1] && tail[b] == points[b + 1];
    }
  }

  /**
   * The matrix entries of the pairs of `combinations(points, 2)`, in the order
   * that generator yields them: the first point with each later one, then the
   * pairs of the rest.
   */
  function PairDistances(points: seq<nat>, m: seq<seq<real>>): (r: seq<real>)
    requires PairsInRange(points, m)
    ensures |r| == |points| * (|points| - 1) / 2
    decreases |points|
  {
    if |points| <= 1 then []
    else
      TailPairsInRange(points, m);
      seq(|points| - 1, t requires 0 <= t < |points| - 1 => m[points[0]][points[t + 1]])
        + PairDistances(points[1..], m)
  }

  /** Every pair's entry is among the pair distances. */
  lemma {:induction false} PairDistancesCover(points: seq<nat>, m: seq<seq<real>>, a: nat, b: nat)
    requires PairsInRange(points, m) && a < b < |points|
    ensures m[points[a]][points[b]] in PairDistances(points, m)
    decreases |points|
  {
    TailPairsInRange(points, m);
    var first := seq(|points| - 1, t requires 0 <= t < |points| - 1 => m[points[0]][points[t + 1]]);
    assert PairDistances(points, m) == first + PairDistances(points[1..], m);
    if a == 0 {
      assert first[b - 1] == m[points[a]][points[b]];
    } else {
      PairDistancesCover(points[1..], m, a - 1, b - 1);
      assert points[1..][a - 1] == points[a] && points[1..][b - 1] == points[b];
    }
  }

  /** Every pair distance is the entry of some pair. */
  lemma {:induction false} PairDistancesOnlyPairs(points: seq<nat>, m: seq<seq<real>>, x: real)
    requires PairsInRange(points, m) && x in PairDistances(points, m)
    ensures exists a, b :: 0 <= a < b < |points| && x == m[points[a]][points[b]]
    decreases |points|
  {
    TailPairsInRange(points, m);
    var tail := points[1..];
    var first := seq(|points| - 1, t requires 0 <= t < |points| - 1 => m[points[0]][points[t + 1]]);
    assert PairDistances(points, m) == first + PairDistances(tail, m);
    if x in first {
      var t :| 0 <= t < |first| && first[t] == x;
      assert x == m[points[0]][points[t + 1]];
    } else {
      PairDistancesOnlyPairs(tail, m, x);
      var a, b :| 0 <= a < b < |tail| && x == m[tail[a]][tail[b]];
      assert tail[a] == points[a + 1] && tail[b] == points[b + 1];
    }
  }

  /** `max` of a non-empty list. */
  function MaxOf(s: seq<real>): (r: real)
    requires |s| > 0
    ensures r in s
    ensures forall x :: x in s ==> x <= r
    decreases |s|
  {
    if |s| == 1 then s[0]
    else
      var m := MaxOf(s[1..]);
      assert forall x :: x in s ==> x == s[0] || x in s[1..];
      if s[0] >= m then s[0] else m
  }

  /**
   * The constructor `Clique(points, k, dist_matrix)`.  Without a matrix the
   * diameter is None; with one it is the largest of 0 and the matrix entries of
   * all pairs of points, and an entry out of the matrix raises IndexError.
   */
  function NewClique(points: seq<nat>, k: Option<nat>, dist: Option<seq<seq<real>>>): (r: Result<Clique>)
    ensures r.Ok? <==> dist.None? || PairsInRange(points, dist.value)
    ensures r.Err? ==> r.error == IndexError
    ensures r.Ok? ==> r.value.points == points && r.value.k == k
    ensures r.Ok? ==> r.value.Size() == |points| && r.value.Dim() == |points| - 1
    ensures r.Ok? ==> (r.value.diameter.None? <==> dist.None?)
    ensures r.Ok? && dist.Some? ==>
      && r.value.diameter.value >= 0.0
      && (forall a, b :: 0 <= a < b < |points| ==> dist.value[points[a]][points[b]] <= r.value.diameter.value)
    ensures r.Ok? && dist.Some? && r.value.diameter.value != 0.0 ==>
      exists a, b :: 0 <= a < b < |points| && r.value.diameter.value == dist.value[points[a]][points[b]]
    ensures r.Ok? && dist.Some? && |points| <= 1 ==> r.value.diameter == Some(0.0)
  {
    if dist.None? then Ok(Clique(points, k, None))
    else if PairsInRange(points, dist.value) then
      var m := dist.value;
      var all := [0.0] + PairDistances(points, m);
      var d := MaxOf(all);
      assert forall a, b :: 0 <= a < b < |points| ==> m[points[a]][points[b]] <= d by {
        forall a: nat, b: nat | a < b < |points| ensures m[points[a]][points[b]] <= d {
          PairDistancesCover(points, m, a, b);
        }
      }
      assert d != 0.0 ==> exists a, b :: 0 <= a < b < |points| && d == m[points[a]][points[b]] by {
        if d != 0.0 {
          PairDistancesOnlyPairs(points, m, d);
        }
      }
      Ok(Clique(points, k, Some(d)))
    else Err(IndexError)
  }

  /** `__eq__`: the same set of points. */
  predicate Same(a: Clique, b: Clique)
  {
    Elems(a.points) == Elems(b.points)
  }

  /** The key a Python set compares cliques by. */
  function PointSet(c: Clique): set<nat>
  {
    Elems(c.points)
  }

  /** `hash(p)` of a non-negative Python int: its remainder modulo 2^61 - 1. */
  function PointHash(p: nat): bv64
  {
    var r := p % 0x1FFF_FFFF_FFFF_FFFF;
    assert r < 0x1_0000_0000_0000_0000;
    r as bv64
  }

  /** `__hash__`: the xor of the point hashes, starting from 0. */
  function Hash(c: Clique): bv64
  {
    PySet.XorAll(c.points, PointHash)
  }

  /** Equal cliques whose points are not repeated hash equally, as a Python set needs. */
  lemma EqualCliquesHashEqually(a: Clique, b: Clique)
    requires Distinct(a.points) && Distinct(b.points)
    requires Same(a, b)
    ensures Hash(a) == Hash(b)
  {
    assert forall x :: x in a.points <==> x in Elems(a.points);
    assert forall x :: x in b.points <==> x in Elems(b.points);
    PySet.XorOfSameElements(a.points, b.points, PointHash);
  }

  /**
   * With a repeated point the hash no longer agrees with equality: [1, 1] and
   * [1] are equal cliques, but their hashes are 0 and 1.
   */
  lemma RepeatedPointSplitsHash()
    ensures Same(Clique([1, 1], None, None), Clique([1], None, None))
    ensures Hash(Clique([1, 1], None, None)) == 0
    ensures Hash(Clique([1], None, None)) == 1
  {
    assert Elems([1, 1]) == {1} == Elems([1]);
    assert [1, 1][..1] == [1];
    assert PointHash(1) == 1;
  }

  /** The point lists of the faces: the clique's list with each of its points removed in turn. */
  function FacePoints(points: seq<nat>): (r: seq<seq<nat>>)
    ensures |r| == |points|
    ensures forall t :: 0 <= t < |points| ==> r[t] == Without(points, points[t])
  {
    seq(|points|, t requires 0 <= t < |points| => Without(points, points[t]))
  }

  /** `r` occurs in `s` in the same order, possibly with gaps. */
  ghost predicate IsSubsequence<T>(r: seq<T>, s: seq<T>)
    decreases |s|
  {
    if r == [] then true
    else if s == [] then false
    else if r[0] == s[0] then IsSubsequence(r[1..], s[1..])
    else IsSubsequence(r, s[1..])
  }

  /** The elements of `fs` whose point list is one of `targets`, in the order of `fs`. */
  function FilterFaces(fs: seq<Clique>, targets: seq<seq<nat>>): (r: seq<Clique>)
    ensures forall f :: f in r <==> f in fs && f.points in targets
    ensures IsSubsequence(r, fs)
    decreases |fs|
  {
    if fs == [] then []
    else
      var rest := FilterFaces(fs[1..], targets);
      assert forall f :: f in fs <==> f == fs[0] || f in fs[1..];
      if fs[0].points in targets then [fs[0]] + rest
      else
        assert rest == [] || rest[0] != fs[0];
        rest
  }

  /** Filtering a concatenation filters each part. */
  lemma {:induction false} FilterFacesAppend(a: seq<Clique>, b: seq<Clique>, targets: seq<seq<nat>>)
    ensures FilterFaces(a + b, targets) == FilterFaces(a, targets) + FilterFaces(b, targets)
    decreases |a|
  {
    if a != [] {
      assert (a + b)[1..] == a[1..] + b;
      FilterFacesAppend(a[1..], b, targets);
    } else {
      assert a + b == b;
    }
  }

  /**
   * `faces(filtration)`: nothing for a 0-clique; otherwise the members of the
   * filtration, in filtration order, whose point list equals the clique's list
   * with one point removed.  Lists are compared as lists, so a face stored with
   * its points in another order is not found.
   */
  function Faces(c: Clique, filtration: seq<Clique>): (r: seq<Clique>)
    ensures c.Dim() == 0 ==> r == []
    ensures forall f :: f in r <==>
      c.Dim() != 0 && f in filtration && exists t :: 0 <= t < |c.points| && f.points == Without(c.points, c.points[t])
    ensures IsSubsequence(r, filtration)
  {
    if c.Dim() == 0 then [] else
      var targets := FacePoints(c.points);
      assert forall l :: l in targets <==> exists t :: 0 <= t < |c.points| && l == Without(c.points, c.points[t]);
      FilterFaces(filtration, targets)
  }

  /** A chain: a set of cliques, at most one per point set. */
  datatype Chain = Chain(cliques: set<Clique>)

  /** All the cliques of a set have the same dimension. */
  predicate SameDim(s: set<Clique>)
  {
    forall x, y :: x in s && y in s ==> x.Dim() == y.Dim()
  }

  /**
   * `Chain(cliques)`: ValueError unless every clique has the dimension of the
   * first (an empty list passes); otherwise the set of the cliques, one per point
   * set.
   */
  function NewChain(cliques: seq<Clique>): (r: Result<Chain>)
    ensures r.Ok? <==> forall t :: 0 <= t < |cliques| ==> cliques[t].Dim() == cliques[0].Dim()
    ensures r.Err? ==> r.error == ValueError
    ensures r.Ok? ==> PySet.Canonical(r.value.cliques, PointSet)
    ensures r.Ok? ==> r.value.cliques <= Elems(cliques)
    ensures r.Ok? ==> PySet.Keys(r.value.cliques, PointSet) == PySet.ListKeys(cliques, PointSet)
    ensures r.Ok? ==> SameDim(r.value.cliques)
  {
    if forall t :: 0 <= t < |cliques| ==> cliques[t].Dim() == cliques[0].Dim() then
      Ok(Chain(PySet.FromList(cliques, PointSet)))
    else Err(ValueError)
  }

  /**
   * `a + b`: the symmetric difference of the two sets, passed through the
   * constructor, so it raises ValueError when the cliques left over have
   * different dimensions.
   */
  function Add(a: Chain, b: Chain): (r: Result<Chain>)
    ensures r.Ok? <==> SameDim(PySet.SymDiff(a.cliques, b.cliques, PointSet))
    ensures r.Err? ==> r.error == ValueError
    ensures r.Ok? ==>
      PySet.Keys(r.value.cliques, PointSet) ==
        (PySet.Keys(a.cliques, PointSet) - PySet.Keys(b.cliques, PointSet)) +
        (PySet.Keys(b.cliques, PointSet) - PySet.Keys(a.cliques, PointSet))
    ensures r.Ok? ==> r.value.cliques <= a.cliques + b.cliques
    ensures r.Ok? && PySet.Canonical(a.cliques, PointSet) && PySet.Canonical(b.cliques, PointSet) ==>
      PySet.Canonical(r.value.cliques, PointSet)
  {
    var d := PySet.SymDiff(a.cliques, b.cliques, PointSet);
    if SameDim(d) then Ok(Chain(d)) else Err(ValueError)
  }

  /** Chain addition is commutative. */
  lemma AddCommutes(a: Chain, b: Chain)
    ensures Add(a, b) == Add(b, a)
  {
    PySet.SymDiffCommutes(a.cliques, b.cliques, PointSet);
  }

  /** Every chain is its own negative: a + a is the empty chain. */
  lemma AddSelfIsZero(a: Chain)
    ensures Add(a, a) == Ok(Chain({}))
  {
    PySet.SymDiffSelf(a.cliques, PointSet);
  }

  /**
   * The empty chain is the identity of addition on chains of one dimension.
   * `DraftClique` states the same for the earlier draft's own `Chain` and `Add`.
   */
  lemma AddZeroIsIdentity(a: Chain)
    requires SameDim(a.cliques)
    ensures Add(a, Chain({})) == Ok(a)
    ensures Add(Chain({}), a) == Ok(a)
  {
    PySet.SymDiffEmpty(a.cliques, PointSet);
    PySet.SymDiffCommutes(a.cliques, {}, PointSet);
  }
}
