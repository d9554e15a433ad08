/**
 * The earlier clique prototype: cliques of point indices whose dimension is
 * their number of points, and chains of cliques with a boundary operator.
 *
 * `FaceChain`, `FaceChains`, `Sum`, `SumOfEmpty` and `AddZeroIsIdentity` share
 * their names and shape with members of `DraftSimplex` and `MknnClique`: each
 * source file defines its own `Chain` class over its own element type, with
 * its own `__add__`, so each module states them for its own `Chain` and `Add`.
 */
module DraftClique {
  import opened Wrappers
  import PySet
  import MknnClique

  /**
   * A clique: its point indices, the k at which it appears and its diameter.
   * `size` and `dim` are both the number of points.
   */
  datatype Clique = Clique(points: seq<nat>, k: Option<nat>, diameter: Option<real>)
  {
    /** `size`: the number of points. */
    function Size(): nat
    {
      |points|
    }

    /** `dim`: the number of points as well, not one less. */
    function Dim(): nat
    {
      |points|
    }
  }

  /**
   * `faces`: nothing for a one-point clique; otherwise, for each point in turn,
   * the clique of the other points, appearing at the same k and without a
   * diameter.  The empty clique has no faces either.
   */
  function Faces(c: Clique): (r: seq<Clique>)
    ensures |c.points| == 1 ==> r == []
    ensures |c.points| != 1 ==> |r| == |c.points|
    ensures |c.points| != 1 ==> forall t :: 0 <= t < |r| ==> r[t] == Clique(Without(c.points, c.points[t]), c.k, None)
  {
    if |c.points| == 1 then []
    else seq(|c.points|, t requires 0 <= t < |c.points| => Clique(Without(c.points, c.points[t]), c.k, None))
  }

  /**
   * With distinct points, each face drops exactly its own point, so its size
   * and dimension are one less, and it keeps the clique's k.
   */
  lemma FacesDropOnePoint(c: Clique, t: nat)
    requires Distinct(c.points) && |c.points| != 1 && t < |c.points|
    ensures Faces(c)[t].Size() == c.Size() - 1 && Faces(c)[t].Dim() == c.Dim() - 1
    ensures PointSet(Faces(c)[t]) == PointSet(c) - {c.points[t]}
    ensures Faces(c)[t].k == c.k && Faces(c)[t].diameter == None
  {
    WithoutKeepsDistinct(c.points, c.points[t]);
  }

  /** `__eq__`: the same set of points. */
  predicate Same(a: Clique, b: Clique)
  {
    Elems(a.points) == Elems(b.points)
  }

  /** The key a Python set compares cliques by. */
  function PointSet(c: Clique): set<nat>
  {
    Elems(c.points)
  }

  /**
   * `__hash__`: xor of the point hashes reduced without an initial value, so it
   * raises TypeError on a clique with no points.
   */
  function Hash(c: Clique): (r: Result<bv64>)
    ensures r.Ok? <==> c.points != []
    ensures r.Err? ==> r.error == TypeError
    ensures r.Ok? ==> r.value == PySet.XorAll(c.points, MknnClique.PointHash)
  {
    if c.points == [] then Err(TypeError)
    else
      PySet.ReduceFromFirst(c.points, MknnClique.PointHash);
      Ok(PySet.Reduce(c.points[1..], MknnClique.PointHash, PySet.Xor, MknnClique.PointHash(c.points[0])))
  }

  /** Equal cliques whose points are not repeated hash equally, as a Python set needs. */
  lemma EqualCliquesHashEqually(a: Clique, b: Clique)
    requires Distinct(a.points) && Distinct(b.points)
    requires Same(a, b)
    ensures Hash(a) == Hash(b)
  {
    assert forall x :: x in a.points <==> x in Elems(a.points);
    assert forall x :: x in b.points <==> x in Elems(b.points);
    if a.points != [] || b.points != [] {
      assert a.points != [] ==> a.points[0] in b.points;
      assert b.points != [] ==> b.points[0] in a.points;
      PySet.XorOfSameElements(a.points, b.points, MknnClique.PointHash);
    }
  }

  /** A chain: a set of cliques, at most one per point set. */
  datatype Chain = Chain(cliques: set<Clique>)

  /** All the cliques of a set have the same dimension. */
  predicate SameDim(s: set<Clique>)
  {
    forall x, y :: x in s && y in s ==> x.Dim() == y.Dim()
  }

  /**
   * `Chain(cliques)` on a list: ValueError unless every clique has the
   * dimension of the first (an empty list passes); then TypeError if a clique
   * has no points, since building the set hashes each clique (see `Hash`);
   * otherwise the set of them, one per point set.
   */
  function NewChain(cliques: seq<Clique>): (r: Result<Chain>)
    ensures r.Ok? <==> SameDim(Elems(cliques)) && forall x :: x in Elems(cliques) ==> x.points != []
    ensures r.Err? ==> r.error == ValueError || r.error == TypeError
    ensures r.Err? ==> (r.error == ValueError <==> !SameDim(Elems(cliques)))
    ensures r.Ok? ==> PySet.Canonical(r.value.cliques, PointSet)
    ensures r.Ok? ==> r.value.cliques <= Elems(cliques)
    ensures r.Ok? ==> PySet.Keys(r.value.cliques, PointSet) == PySet.ListKeys(cliques, PointSet)
  {
    if forall t :: 0 <= t < |cliques| ==> cliques[t].Dim() == cliques[0].Dim() then
      if exists t :: 0 <= t < |cliques| && cliques[t].points == [] then
        Err(TypeError)
      else
        Ok(Chain(PySet.FromList(cliques, PointSet)))
    else
      assert !SameDim(Elems(cliques)) by {
        var t :| 0 <= t < |cliques| && cliques[t].Dim() != cliques[0].Dim();
        assert cliques[t] in Elems(cliques) && cliques[0] in Elems(cliques);
      }
      Err(ValueError)
  }

  /**
   * `Chain(cliques)` on a set: the check indexes `cliques[0]` for the first
   * element it meets, which a set does not allow, so every non-empty set raises
   * TypeError and only the empty set gets through.
   */
  function ChainOfSet(s: set<Clique>): (r: Result<Chain>)
    ensures r.Ok? <==> s == {}
    ensures r.Ok? ==> r.value == Chain({})
    ensures r.Err? ==> r.error == TypeError
  {
    if s == {} then Ok(Chain({})) else Err(TypeError)
  }

  /** `a + b` as written: the symmetric difference is handed over as a set. */
  function AddAsWritten(a: Chain, b: Chain): (r: Result<Chain>)
    ensures r.Err? ==> r.error == TypeError
  {
    ChainOfSet(PySet.SymDiff(a.cliques, b.cliques, PointSet))
  }

  /**
   * As written, addition succeeds only for two chains with the same point sets,
   * and then gives the empty chain: any other sum raises TypeError.
   */
  lemma AddAsWrittenOnlyCancels(a: Chain, b: Chain)
    ensures AddAsWritten(a, b).Ok? <==> PySet.Keys(a.cliques, PointSet) == PySet.Keys(b.cliques, PointSet)
    ensures AddAsWritten(a, b).Ok? ==> AddAsWritten(a, b).value == Chain({})
  {
    var d := PySet.SymDiff(a.cliques, b.cliques, PointSet);
    if d == {} {
      assert PySet.Keys(d, PointSet) == {};
    } else {
      var y :| y in d;
      assert PointSet(y) in PySet.Keys(d, PointSet);
    }
  }

  /** The sum of the chains of the points 1 and 2 raises, where their symmetric difference is meant. */
  lemma AddAsWrittenRejectsDisjoint()
    ensures AddAsWritten(Chain({Clique([1], None, None)}), Chain({Clique([2], None, None)})) == Err(TypeError)
    ensures Add(Chain({Clique([1], None, None)}), Chain({Clique([2], None, None)})) ==
      Ok(Chain({Clique([1], None, None), Clique([2], None, None)}))
  {
    var one := Clique([1], None, None);
    var two := Clique([2], None, None);
    assert PointSet(one) == {1} && PointSet(two) == {2};
    assert !PySet.Has({two}, one, PointSet) && !PySet.Has({one}, two, PointSet);
    assert PySet.SymDiff({one}, {two}, PointSet) == {one, two};
  }

  /**
   * `a + b` with the symmetric difference handed over as a list, as the later
   * clique module does: ValueError when the cliques left over have different
   * dimensions.
   */
  function Add(a: Chain, b: Chain): (r: Result<Chain>)
    ensures r.Ok? <==> SameDim(PySet.SymDiff(a.cliques, b.cliques, PointSet))
    ensures r.Err? ==> r.error == ValueError
    ensures r.Ok? ==>
      PySet.Keys(r.value.cliques, PointSet) ==
        (PySet.Keys(a.cliques, PointSet) - PySet.Keys(b.cliques, PointSet)) +
        (PySet.Keys(b.cliques, PointSet) - PySet.Keys(a.cliques, PointSet))
    ensures r.Ok? ==> r.value.cliques <= a.cliques + b.cliques
  {
    var d := PySet.SymDiff(a.cliques, b.cliques, PointSet);
    if SameDim(d) then Ok(Chain(d)) else Err(ValueError)
  }

  /** Chain addition is commutative. */
  lemma AddCommutes(a: Chain, b: Chain)
    ensures Add(a, b) == Add(b, a)
    ensures AddAsWritten(a, b) == AddAsWritten(b, a)
  {
    PySet.SymDiffCommutes(a.cliques, b.cliques, PointSet);
  }

  /** Every chain is its own negative: a + a is the empty chain, as written too. */
  lemma AddSelfIsZero(a: Chain)
    ensures Add(a, a) == Ok(Chain({}))
    ensures AddAsWritten(a, a) == Ok(Chain({}))
  {
    PySet.SymDiffSelf(a.cliques, PointSet);
  }

  /** The empty chain is the identity of addition on chains of one dimension. */
  lemma AddZeroIsIdentity(a: Chain)
    requires SameDim(a.cliques)
    ensures Add(a, Chain({})) == Ok(a)
    ensures Add(Chain({}), a) == Ok(a)
  {
    PySet.SymDiffEmpty(a.cliques, PointSet);
    PySet.SymDiffCommutes(a.cliques, {}, PointSet);
  }

  /** `Chain(c.faces)`: the chain of a clique's faces. */
  function FaceChain(c: Clique): (r: Result<Chain>)
    ensures r.Err? ==> r.error == ValueError || r.error == TypeError
  {
    NewChain(Faces(c))
  }

  /**
   * `[Chain(c.faces) for c in order]`: the chain of each clique's faces, in the
   * order the cliques are listed; the first face list that does not make a
   * chain raises its ValueError or TypeError.
   */
  function FaceChains(order: seq<Clique>): (r: Result<seq<Chain>>)
    ensures r.Err? ==> r.error == ValueError || r.error == TypeError
  {
    MapResult(order, FaceChain)
  }

  /** `sum(cs, acc)` with the corrected addition. */
  function Sum(cs: seq<Chain>, acc: Chain): (r: Result<Chain>)
    ensures r.Err? ==> r.error == ValueError
    decreases |cs|
  {
    if cs == [] then Ok(acc)
    else
      match Add(acc, cs[0])
      case Err(e) => Err(e)
      case Ok(a) => Sum(cs[1..], a)
  }

  /** `sum(cs, acc)` with the addition as written. */
  function SumAsWritten(cs: seq<Chain>, acc: Chain): (r: Result<Chain>)
    ensures r.Err? ==> r.error == TypeError
    decreases |cs|
  {
    if cs == [] then Ok(acc)
    else
      match AddAsWritten(acc, cs[0])
      case Err(e) => Err(e)
      case Ok(a) => SumAsWritten(cs[1..], a)
  }

  /**
   * `boundary`: the sum of the face chains of the chain's cliques, from the
   * empty chain, with the corrected addition.  `order` is the order in which the
   * set of cliques is listed.
   */
  function Boundary(c: Chain, order: seq<Clique>): (r: Result<Chain>)
    requires Distinct(order) && Elems(order) == c.cliques
    ensures r.Err? ==> r.error == ValueError || r.error == TypeError
    ensures r == Err(TypeError) ==> exists x :: x in c.cliques && FaceChain(x) == Err(TypeError)
  {
    match FaceChains(order)
    case Err(e) => Err(e)
    case Ok(cs) => Sum(cs, Chain({}))
  }

  /** `is_cycle` with the corrected addition. */
  function IsCycle(c: Chain, order: seq<Clique>): (r: Result<bool>)
    requires Distinct(order) && Elems(order) == c.cliques
    ensures r.Ok? <==> Boundary(c, order).Ok?
    ensures r.Ok? ==> (r.value <==> Boundary(c, order).value.cliques == {})
  {
    match Boundary(c, order)
    case Err(e) => Err(e)
    case Ok(b) => Ok(|b.cliques| == 0)
  }

  /** `boundary` as written: ValueError or TypeError from a face list, or TypeError from an addition. */
  function BoundaryAsWritten(c: Chain, order: seq<Clique>): (r: Result<Chain>)
    requires Distinct(order) && Elems(order) == c.cliques
    ensures r.Err? ==> r.error == ValueError || r.error == TypeError
  {
    match FaceChains(order)
    case Err(e) => Err(e)
    case Ok(cs) => SumAsWritten(cs, Chain({}))
  }

  /** `is_cycle` as written. */
  function IsCycleAsWritten(c: Chain, order: seq<Clique>): (r: Result<bool>)
    requires Distinct(order) && Elems(order) == c.cliques
    ensures r.Ok? <==> BoundaryAsWritten(c, order).Ok?
    ensures r.Ok? ==> (r.value <==> BoundaryAsWritten(c, order).value.cliques == {})
  {
    match BoundaryAsWritten(c, order)
    case Err(e) => Err(e)
    case Ok(b) => Ok(|b.cliques| == 0)
  }

  /** All the points of `points` are one point. */
  predicate OnePoint(points: seq<nat>)
  {
    forall t :: 0 <= t < |points| ==> points[t] == points[0]
  }

  /** A clique of two or more copies of one point has empty faces, so its face chain raises TypeError. */
  lemma RepeatedPointFacesRaise(c: Clique)
    requires |c.points| >= 2 && OnePoint(c.points)
    ensures FaceChain(c) == Err(TypeError)
  {
    var fs := Faces(c);
    WithoutEvery(c.points, c.points[0]);
    assert fs[0].points == [];
  }

  /** A face chain that raises TypeError comes from a clique of two or more copies of one point. */
  lemma FaceChainTypeErrorIsRepeatedPoint(c: Clique)
    requires FaceChain(c) == Err(TypeError)
    ensures |c.points| >= 2 && OnePoint(c.points)
  {
    var fs := Faces(c);
    assert NewChain(fs) == Err(TypeError);
    var x :| x in Elems(fs) && x.points == [];
    var t :| 0 <= t < |fs| && fs[t] == x;
    WithoutEvery(c.points, c.points[t]);
  }

  /**
   * The faces of a clique make no chain, with TypeError, exactly when it has at
   * least two points and they are all one point: each face then drops every
   * point and is empty, so it cannot be hashed.
   */
  lemma FaceChainRaisesTypeError(c: Clique)
    ensures FaceChain(c) == Err(TypeError) <==> |c.points| >= 2 && OnePoint(c.points)
  {
    if |c.points| >= 2 && OnePoint(c.points) {
      RepeatedPointFacesRaise(c);
    }
    if FaceChain(c) == Err(TypeError) {
      FaceChainTypeErrorIsRepeatedPoint(c);
    }
  }

  /** The boundary of the chain of the clique `[1, 1]` raises TypeError, with either addition. */
  lemma RepeatedPointBoundaryRaises()
    ensures Boundary(Chain({Clique([1, 1], None, None)}), [Clique([1, 1], None, None)]) == Err(TypeError)
    ensures BoundaryAsWritten(Chain({Clique([1, 1], None, None)}), [Clique([1, 1], None, None)]) == Err(TypeError)
  {
    RepeatedPointFacesRaise(Clique([1, 1], None, None));
  }

  /** Adding empty chains to the empty chain leaves it empty. */
  lemma {:induction false} SumOfEmpty(cs: seq<Chain>)
    requires forall t :: 0 <= t < |cs| ==> cs[t] == Chain({})
    ensures Sum(cs, Chain({})) == Ok(Chain({}))
    decreases |cs|
  {
    if cs != [] {
      AddSelfIsZero(Chain({}));
      assert forall t :: 0 <= t < |cs| - 1 ==> cs[1..][t] == cs[t + 1];
      SumOfEmpty(cs[1..]);
    }
  }

  /**
   * As written, a sum from the empty chain succeeds exactly when every summand
   * is empty, and is then empty: the first non-empty summand raises.
   */
  lemma {:induction false} SumAsWrittenOfEmpty(cs: seq<Chain>)
    ensures SumAsWritten(cs, Chain({})).Ok? <==> forall t :: 0 <= t < |cs| ==> cs[t].cliques == {}
    ensures SumAsWritten(cs, Chain({})).Ok? ==> SumAsWritten(cs, Chain({})).value == Chain({})
    decreases |cs|
  {
    if cs != [] {
      PySet.SymDiffEmpty(cs[0].cliques, PointSet);
      PySet.SymDiffCommutes(cs[0].cliques, {}, PointSet);
      assert forall t :: 0 < t < |cs| ==> cs[t] == cs[1..][t - 1];
      SumAsWrittenOfEmpty(cs[1..]);
    }
  }

  /** A clique of at most one point has no faces, so its face chain is the empty chain. */
  lemma PointFaceChain(x: Clique)
    requires x.Dim() <= 1
    ensures FaceChain(x) == Ok(Chain({}))
  {
    assert Faces(x) == [];
  }

  /** A chain of cliques with at most one point each has an empty boundary, so it is a cycle. */
  lemma PointChainsAreCycles(c: Chain, order: seq<Clique>)
    requires Distinct(order) && Elems(order) == c.cliques
    requires forall x :: x in c.cliques ==> x.Dim() <= 1
    ensures Boundary(c, order) == Ok(Chain({}))
    ensures IsCycle(c, order) == Ok(true)
  {
    forall t | 0 <= t < |order| ensures FaceChain(order[t]) == Ok(Chain({})) {
      assert order[t] in c.cliques;
      PointFaceChain(order[t]);
    }
    var cs := FaceChains(order).value;
    SumOfEmpty(cs);
    assert Boundary(c, order) == Sum(cs, Chain({}));
  }

  /** The chain of a clique's faces, when it builds, is empty exactly for a clique of at most one point. */
  lemma FaceChainEmptyIffPoints(x: Clique)
    requires FaceChain(x).Ok?
    ensures x.Dim() <= 1 <==> FaceChain(x).value.cliques == {}
  {
    var fs := Faces(x);
    if x.Dim() >= 2 {
      assert fs[0] in fs;
      assert PointSet(fs[0]) in PySet.ListKeys(fs, PointSet);
      assert PointSet(fs[0]) in PySet.Keys(FaceChain(x).value.cliques, PointSet);
    } else {
      assert fs == [];
    }
  }

  /** The listed face chains are all empty exactly when every clique of the chain has at most one point. */
  lemma EmptyFaceChainsIffPoints(c: Chain, order: seq<Clique>, cs: seq<Chain>)
    requires Elems(order) == c.cliques
    requires |cs| == |order| && forall t :: 0 <= t < |order| ==> FaceChain(order[t]) == Ok(cs[t])
    ensures (forall t :: 0 <= t < |cs| ==> cs[t].cliques == {}) <==> forall x :: x in c.cliques ==> x.Dim() <= 1
  {
    forall t | 0 <= t < |cs| ensures cs[t].cliques == {} <==> order[t].Dim() <= 1 {
      FaceChainEmptyIffPoints(order[t]);
    }
    assert forall x :: x in c.cliques ==> exists t :: 0 <= t < |order| && order[t] == x;
  }

  /**
   * As written, the boundary exists exactly for chains of cliques with at most
   * one point each; it is then empty and the chain is a cycle.
   */
  lemma BoundaryAsWrittenOnlyForPoints(c: Chain, order: seq<Clique>)
    requires Distinct(order) && Elems(order) == c.cliques
    ensures BoundaryAsWritten(c, order).Ok? <==> forall x :: x in c.cliques ==> x.Dim() <= 1
    ensures BoundaryAsWritten(c, order).Ok? ==> BoundaryAsWritten(c, order).value == Chain({})
    ensures IsCycleAsWritten(c, order).Ok? ==> IsCycleAsWritten(c, order).value
  {
    if FaceChains(order).Ok? {
      var cs := FaceChains(order).value;
      SumAsWrittenOfEmpty(cs);
      EmptyFaceChainsIffPoints(c, order, cs);
    } else {
      var t :| 0 <= t < |order| && FaceChain(order[t]).Err?;
      assert order[t] in c.cliques;
      assert Faces(order[t]) != [];
    }
  }
}
