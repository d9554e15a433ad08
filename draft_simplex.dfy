/**
 * The simplex prototype: simplices of R^n given by their point tuples, and
 * chains of simplices over GF(2) with a boundary operator.
 *
 * `DraftClique` has members of the same names and shape (`FaceChain`,
 * `FaceChains`, `Sum`, `SumOfEmpty`): clique.py repeats this file's `Chain`
 * class over cliques of point indices, so each module keeps its own.
 */
module DraftSimplex {
  import opened Wrappers
  import PySet

  /** A point of R^n, a tuple of coordinates. */
  type Point = seq<real>

  /** A simplex: the list of its points. */
  datatype Simplex = Simplex(points: seq<Point>)

  /** Every point has as many coordinates as the first one. */
  predicate SameLength(points: seq<Point>)
  {
    forall t :: 0 <= t < |points| ==> |points[t]| == |points[0]|
  }

  /**
   * `Simplex(points)`: ValueError unless the points all have the same number of
   * coordinates.  The empty list passes, since no point is compared with the
   * first.
   */
  function NewSimplex(points: seq<Point>): (r: Result<Simplex>)
    ensures r.Ok? <==> forall a, b :: 0 <= a < |points| && 0 <= b < |points| ==> |points[a]| == |points[b]|
    ensures r.Ok? ==> r.value.points == points
    ensures r.Err? ==> r.error == ValueError
  {
    if SameLength(points) then Ok(Simplex(points)) else Err(ValueError)
  }

  /** `dim`: the number of points, not one less. */
  function Dim(s: Simplex): nat
  {
    |s.points|
  }

  /**
   * `faces`: nothing for a one-point simplex; otherwise, for each point in turn,
   * the simplex of the other points.  The empty simplex has no faces either.
   */
  function Faces(s: Simplex): (r: seq<Simplex>)
    ensures |s.points| == 1 ==> r == []
    ensures |s.points| != 1 ==> |r| == |s.points|
    ensures |s.points| != 1 ==> forall t :: 0 <= t < |r| ==> r[t] == Simplex(Without(s.points, s.points[t]))
  {
    if |s.points| == 1 then []
    else seq(|s.points|, t requires 0 <= t < |s.points| => Simplex(Without(s.points, s.points[t])))
  }

  /** The faces of a simplex that passed the constructor pass it too, so building them never raises. */
  lemma FacesPassConstructor(s: Simplex, t: nat)
    requires NewSimplex(s.points).Ok? && t < |Faces(s)|
    ensures NewSimplex(Faces(s)[t].points) == Ok(Faces(s)[t])
  {
    var w := Faces(s)[t].points;
    forall a, b | 0 <= a < |w| && 0 <= b < |w| ensures |w[a]| == |w[b]| {
      assert w[a] in w && w[b] in w;
    }
  }

  /** With distinct points, each face drops exactly its own point and has one point fewer. */
  lemma FacesDropOnePoint(s: Simplex, t: nat)
    requires Distinct(s.points) && |s.points| != 1 && t < |s.points|
    ensures Dim(Faces(s)[t]) == Dim(s) - 1
    ensures PointSet(Faces(s)[t]) == PointSet(s) - {s.points[t]}
    ensures Distinct(Faces(s)[t].points)
  {
    WithoutKeepsDistinct(s.points, s.points[t]);
  }

  /** `__eq__`: the same set of points. */
  predicate Same(a: Simplex, b: Simplex)
  {
    Elems(a.points) == Elems(b.points)
  }

  /** The key a Python set compares simplices by. */
  function PointSet(s: Simplex): set<Point>
  {
    Elems(s.points)
  }

  /**
   * `__hash__`: xor of the point hashes, reduced without an initial value, so it
   * raises TypeError on a simplex with no points.  The hash of a point tuple is
   * a parameter.
   */
  function Hash(s: Simplex, h: Point -> bv64): (r: Result<bv64>)
    ensures r.Ok? <==> s.points != []
    ensures r.Err? ==> r.error == TypeError
    ensures r.Ok? ==> r.value == PySet.XorAll(s.points, h)
  {
    if s.points == [] then Err(TypeError)
    else
      PySet.ReduceFromFirst(s.points, h);
      Ok(PySet.Reduce(s.points[1..], h, PySet.Xor, h(s.points[0])))
  }

  /** Equal simplices whose points are not repeated hash equally, as a Python set needs. */
  lemma EqualSimplicesHashEqually(a: Simplex, b: Simplex, h: Point -> bv64)
    requires Distinct(a.points) && Distinct(b.points)
    requires Same(a, b)
    ensures Hash(a, h) == Hash(b, h)
  {
    assert forall x :: x in a.points <==> x in Elems(a.points);
    assert forall x :: x in b.points <==> x in Elems(b.points);
    if a.points != [] || b.points != [] {
      assert a.points != [] ==> a.points[0] in b.points;
      assert b.points != [] ==> b.points[0] in a.points;
      PySet.XorOfSameElements(a.points, b.points, h);
    }
  }

  /** A chain: a set of simplices, at most one per point set. */
  datatype Chain = Chain(simplices: set<Simplex>)

  /** All the simplices of a set have the same dimension. */
  predicate SameDim(s: set<Simplex>)
  {
    forall x, y :: x in s && y in s ==> Dim(x) == Dim(y)
  }

  /**
   * `Chain(simplices)`: ValueError unless every simplex has the dimension of the
   * first one listed (an empty list passes); then TypeError if a simplex has no
   * points, since building the set hashes each simplex (see `Hash`); otherwise
   * the set of them, one per point set.
   */
  function NewChain(simplices: seq<Simplex>): (r: Result<Chain>)
    ensures r.Ok? <==> SameDim(Elems(simplices)) && forall x :: x in Elems(simplices) ==> x.points != []
    ensures r.Err? ==> r.error == ValueError || r.error == TypeError
    ensures r.Err? ==> (r.error == ValueError <==> !SameDim(Elems(simplices)))
    ensures r.Ok? ==> PySet.Canonical(r.value.simplices, PointSet)
    ensures r.Ok? ==> r.value.simplices <= Elems(simplices)
    ensures r.Ok? ==> PySet.Keys(r.value.simplices, PointSet) == PySet.ListKeys(simplices, PointSet)
    ensures r.Ok? ==> SameDim(r.value.simplices)
  {
    if forall t :: 0 <= t < |simplices| ==> Dim(simplices[t]) == Dim(simplices[0]) then
      if exists t :: 0 <= t < |simplices| && simplices[t].points == [] then
        Err(TypeError)
      else
        Ok(Chain(PySet.FromList(simplices, PointSet)))
    else
      assert !SameDim(Elems(simplices)) by {
        var t :| 0 <= t < |simplices| && Dim(simplices[t]) != Dim(simplices[0]);
        assert simplices[t] in Elems(simplices) && simplices[0] in Elems(simplices);
      }
      Err(ValueError)
  }

  /**
   * `a + b`: the symmetric difference of the two sets, passed through the
   * constructor, so it raises ValueError when the simplices left over have
   * different dimensions.
   */
  function Add(a: Chain, b: Chain): (r: Result<Chain>)
    ensures r.Ok? <==> SameDim(PySet.SymDiff(a.simplices, b.simplices, PointSet))
    ensures r.Err? ==> r.error == ValueError
    ensures r.Ok? ==>
      PySet.Keys(r.value.simplices, PointSet) ==
        (PySet.Keys(a.simplices, PointSet) - PySet.Keys(b.simplices, PointSet)) +
        (PySet.Keys(b.simplices, PointSet) - PySet.Keys(a.simplices, PointSet))
    ensures r.Ok? ==> r.value.simplices <= a.simplices + b.simplices
  {
    var d := PySet.SymDiff(a.simplices, b.simplices, PointSet);
    if SameDim(d) then Ok(Chain(d)) else Err(ValueError)
  }

  /** Chain addition is commutative. */
  lemma AddCommutes(a: Chain, b: Chain)
    ensures Add(a, b) == Add(b, a)
  {
    PySet.SymDiffCommutes(a.simplices, b.simplices, PointSet);
  }

  /** Every chain is its own negative: a + a is the empty chain. */
  lemma AddSelfIsZero(a: Chain)
    ensures Add(a, a) == Ok(Chain({}))
  {
    PySet.SymDiffSelf(a.simplices, PointSet);
  }

  /** The empty chain is the identity of addition on chains of one dimension. */
  lemma AddZeroIsIdentity(a: Chain)
    requires SameDim(a.simplices)
    ensures Add(a, Chain({})) == Ok(a)
    ensures Add(Chain({}), a) == Ok(a)
  {
    PySet.SymDiffEmpty(a.simplices, PointSet);
    PySet.SymDiffCommutes(a.simplices, {}, PointSet);
  }

  /** `Chain(s.faces)`: the chain of a simplex's faces. */
  function FaceChain(s: Simplex): (r: Result<Chain>)
    ensures r.Err? ==> r.error == ValueError || r.error == TypeError
  {
    NewChain(Faces(s))
  }

  /**
   * `[Chain(s.faces) for s in order]`: the chain of each simplex's faces, in
   * the order the simplices are listed; the first face list that does not make
   * a chain raises its ValueError or TypeError.
   */
  function FaceChains(order: seq<Simplex>): (r: Result<seq<Chain>>)
    ensures r.Err? ==> r.error == ValueError || r.error == TypeError
  {
    MapResult(order, FaceChain)
  }

  /** `sum(cs, acc)`: the chains added to `acc` one by one, from the left. */
  function Sum(cs: seq<Chain>, acc: Chain): (r: Result<Chain>)
    ensures r.Err? ==> r.error == ValueError
    decreases |cs|
  {
    if cs == [] then Ok(acc)
    else
      match Add(acc, cs[0])
      case Err(e) => Err(e)
      case Ok(a) => Sum(cs[1..], a)
  }

  /**
   * `boundary`: the sum of the face chains of the chain's simplices, starting
   * from the empty chain.  `order` is the order in which the set of simplices
   * is listed, which Python leaves to the hashes.
   */
  function Boundary(c: Chain, order: seq<Simplex>): (r: Result<Chain>)
    requires Distinct(order) && Elems(order) == c.simplices
    ensures r.Err? ==> r.error == ValueError || r.error == TypeError
    ensures r == Err(TypeError) ==> exists x :: x in c.simplices && FaceChain(x) == Err(TypeError)
  {
    match FaceChains(order)
    case Err(e) => Err(e)
    case Ok(cs) => Sum(cs, Chain({}))
  }

  /** `is_cycle`: whether the boundary is the empty chain. */
  function IsCycle(c: Chain, order: seq<Simplex>): (r: Result<bool>)
    requires Distinct(order) && Elems(order) == c.simplices
    ensures r.Ok? <==> Boundary(c, order).Ok?
    ensures r.Ok? ==> (r.value <==> Boundary(c, order).value.simplices == {})
  {
    match Boundary(c, order)
    case Err(e) => Err(e)
    case Ok(b) => Ok(|b.simplices| == 0)
  }

  /** All the points of `points` are one point. */
  predicate OnePoint(points: seq<Point>)
  {
    forall t :: 0 <= t < |points| ==> points[t] == points[0]
  }

  /** A simplex of two or more copies of one point has empty faces, so its face chain raises TypeError. */
  lemma RepeatedPointFacesRaise(s: Simplex)
    requires |s.points| >= 2 && OnePoint(s.points)
    ensures FaceChain(s) == Err(TypeError)
  {
    var fs := Faces(s);
    WithoutEvery(s.points, s.points[0]);
    assert fs[0].points == [];
  }

  /** A face chain that raises TypeError comes from a simplex of two or more copies of one point. */
  lemma FaceChainTypeErrorIsRepeatedPoint(s: Simplex)
    requires FaceChain(s) == Err(TypeError)
    ensures |s.points| >= 2 && OnePoint(s.points)
  {
    var fs := Faces(s);
    assert NewChain(fs) == Err(TypeError);
    var x :| x in Elems(fs) && x.points == [];
    var t :| 0 <= t < |fs| && fs[t] == x;
    WithoutEvery(s.points, s.points[t]);
  }

  /**
   * The faces of a simplex make no chain, with TypeError, exactly when it has
   * at least two points and they are all one point: each face then drops every
   * point and is empty, so it cannot be hashed.
   */
  lemma FaceChainRaisesTypeError(s: Simplex)
    ensures FaceChain(s) == Err(TypeError) <==> |s.points| >= 2 && OnePoint(s.points)
  {
    if |s.points| >= 2 && OnePoint(s.points) {
      RepeatedPointFacesRaise(s);
    }
    if FaceChain(s) == Err(TypeError) {
      FaceChainTypeErrorIsRepeatedPoint(s);
    }
  }

  /** The boundary of the chain of the simplex `[p, p]` raises TypeError. */
  lemma RepeatedPointBoundaryRaises(p: Point)
    ensures Boundary(Chain({Simplex([p, p])}), [Simplex([p, p])]) == Err(TypeError)
  {
    RepeatedPointFacesRaise(Simplex([p, p]));
  }

  /** Adding empty chains to the empty chain leaves it empty. */
  lemma {:induction false} SumOfEmpty(cs: seq<Chain>)
    requires forall t :: 0 <= t < |cs| ==> cs[t] == Chain({})
    ensures Sum(cs, Chain({})) == Ok(Chain({}))
    decreases |cs|
  {
    if cs != [] {
      AddSelfIsZero(Chain({}));
      assert forall t :: 0 <= t < |cs| - 1 ==> cs[1..][t] == cs[t + 1];
      SumOfEmpty(cs[1..]);
    }
  }

  /** A simplex of at most one point has no faces, so its face chain is the empty chain. */
  lemma PointFaceChain(x: Simplex)
    requires Dim(x) <= 1
    ensures FaceChain(x) == Ok(Chain({}))
  {
    assert Faces(x) == [];
  }

  /** A chain of simplices with at most one point each has an empty boundary, so it is a cycle. */
  lemma PointChainsAreCycles(c: Chain, order: seq<Simplex>)
    requires Distinct(order) && Elems(order) == c.simplices
    requires forall x :: x in c.simplices ==> Dim(x) <= 1
    ensures Boundary(c, order) == Ok(Chain({}))
    ensures IsCycle(c, order) == Ok(true)
  {
    forall t | 0 <= t < |order| ensures FaceChain(order[t]) == Ok(Chain({})) {
      assert order[t] in c.simplices;
      PointFaceChain(order[t]);
    }
    var cs := FaceChains(order).value;
    SumOfEmpty(cs);
    assert Boundary(c, order) == Sum(cs, Chain({}));
  }

  /** Every simplex of `s` has `d` points. */
  predicate AllDim(s: set<Simplex>, d: nat)
  {
    forall x :: x in s ==> Dim(x) == d
  }

  /** The point sets present in each chain of `cs`, in order. */
  ghost function KeySeq(cs: seq<Chain>): (r: seq<set<set<Point>>>)
    ensures |r| == |cs|
    ensures forall t :: 0 <= t < |cs| ==> r[t] == PySet.Keys(cs[t].simplices, PointSet)
    decreases |cs|
  {
    if cs == [] then [] else [PySet.Keys(cs[0].simplices, PointSet)] + KeySeq(cs[1..])
  }

  /**
   * A sum of chains whose simplices all have the same dimension never raises,
   * and its point sets are the GF(2) sum of the summands' point sets.
   */
  lemma {:induction false} SumKeys(cs: seq<Chain>, acc: Chain, d: nat)
    requires AllDim(acc.simplices, d)
    requires forall t :: 0 <= t < |cs| ==> AllDim(cs[t].simplices, d)
    ensures Sum(cs, acc).Ok?
    ensures PySet.Keys(Sum(cs, acc).value.simplices, PointSet) == PySet.Flip(PySet.Keys(acc.simplices, PointSet), KeySeq(cs))
    decreases |cs|
  {
    if cs != [] {
      var sd := PySet.SymDiff(acc.simplices, cs[0].simplices, PointSet);
      assert AllDim(sd, d);
      assert SameDim(sd);
      var a := Add(acc, cs[0]).value;
      assert AllDim(a.simplices, d);
      forall t | 0 <= t < |cs| - 1 ensures AllDim(cs[1..][t].simplices, d) {
        assert cs[1..][t] == cs[t + 1];
      }
      SumKeys(cs[1..], a, d);
      assert KeySeq(cs)[1..] == KeySeq(cs[1..]);
    }
  }

  /** The faces of a simplex with distinct points all have one point fewer, so they make a chain. */
  lemma FacesFormChain(s: Simplex)
    requires Distinct(s.points)
    ensures NewChain(Faces(s)).Ok?
    ensures forall x :: x in NewChain(Faces(s)).value.simplices ==> Dim(x) + 1 == Dim(s)
  {
    var fs := Faces(s);
    forall x | x in Elems(fs) ensures Dim(x) + 1 == Dim(s) && x.points != [] {
      var t :| 0 <= t < |fs| && fs[t] == x;
      FacesDropOnePoint(s, t);
    }
  }

  /** Dropping two points of a list leaves the rest of its points. */
  lemma WithoutTwice(points: seq<Point>, p: Point, q: Point)
    ensures Elems(Without(Without(points, p), q)) == Elems(points) - {p, q}
  {
  }

  /** `x` is the point set of `points` without `p` and one other of its points. */
  ghost predicate DropsTwo(points: seq<Point>, p: Point, x: set<Point>)
  {
    exists q :: q in points && q != p && x == Elems(points) - {p, q}
  }

  /** The i-th face of the face that drops `p` drops `p` and the i-th remaining point. */
  lemma FaceOfFace(points: seq<Point>, p: Point, i: nat)
    requires Distinct(points) && |points| >= 3 && p in points
    requires i < |Without(points, p)|
    ensures |Faces(Simplex(Without(points, p)))| == |Without(points, p)|
    ensures Without(points, p)[i] in points && Without(points, p)[i] != p
    ensures PointSet(Faces(Simplex(Without(points, p)))[i]) == Elems(points) - {p, Without(points, p)[i]}
  {
    var w := Without(points, p);
    WithoutKeepsDistinct(points, p);
    assert w[i] in w;
    WithoutTwice(points, p, w[i]);
  }

  /** One point set, tested against the chain of faces of the face that drops `p`. */
  lemma FaceOfFaceKey(points: seq<Point>, p: Point, x: set<Point>)
    requires Distinct(points) && |points| >= 3 && p in points
    ensures x in PySet.ListKeys(Faces(Simplex(Without(points, p))), PointSet) <==> DropsTwo(points, p, x)
  {
    var w := Without(points, p);
    var fs := Faces(Simplex(w));
    if x in PySet.ListKeys(fs, PointSet) {
      var f :| f in fs && PointSet(f) == x;
      var i :| 0 <= i < |fs| && fs[i] == f;
      FaceOfFace(points, p, i);
    }
    if DropsTwo(points, p, x) {
      var q :| q in points && q != p && x == Elems(points) - {p, q};
      assert q in w;
      var i :| 0 <= i < |w| && w[i] == q;
      FaceOfFace(points, p, i);
      assert fs[i] in fs;
    }
  }

  /**
   * The point sets in the chain of faces of the face that drops `p` are those
   * that drop `p` and one other point, when at least three points are distinct.
   */
  lemma FaceOfFaceKeys(points: seq<Point>, p: Point, c: Chain)
    requires Distinct(points) && |points| >= 3 && p in points
    requires NewChain(Faces(Simplex(Without(points, p)))) == Ok(c)
    ensures forall x :: x in PySet.Keys(c.simplices, PointSet) <==> DropsTwo(points, p, x)
  {
    forall x ensures x in PySet.Keys(c.simplices, PointSet) <==> DropsTwo(points, p, x) {
      FaceOfFaceKey(points, p, x);
    }
  }

  /** The point set that drops `a` and `b` drops `pt` and another point exactly when `pt` is `a` or `b`. */
  lemma DropsPair(points: seq<Point>, pt: Point, x: set<Point>, a: Point, b: Point)
    requires a in points && b in points && a != b && x == Elems(points) - {a, b}
    requires pt in points
    ensures DropsTwo(points, pt, x) <==> pt in {a, b}
  {
    if pt == a {
      assert b in points && b != pt && x == Elems(points) - {pt, b};
    } else if pt == b {
      assert a in points && a != pt && x == Elems(points) - {pt, a};
    }
  }

  /** A point set that drops two points is dropped-two for exactly two of the removed points. */
  lemma CodimTwoPair(points: seq<Point>, ps: seq<Point>, ks: seq<set<set<Point>>>, x: set<Point>, a: Point, b: Point)
    requires Distinct(ps) && Elems(ps) == Elems(points) && |ks| == |ps|
    requires forall t :: 0 <= t < |ks| ==> (x in ks[t] <==> DropsTwo(points, ps[t], x))
    requires a in points && b in points && a != b && x == Elems(points) - {a, b}
    ensures PySet.Count(x, ks) == 2
  {
    var pair := {a, b};
    forall t | 0 <= t < |ks| ensures x in ks[t] <==> ps[t] in pair {
      assert ps[t] in Elems(points);
      DropsPair(points, ps[t], x, a, b);
    }
    PySet.CountMatches(x, ks, ps, pair);
    PySet.CountInTwo(ps, a, b);
    assert a in Elems(ps) && b in Elems(ps);
  }

  /**
   * A point set is dropped-two for an even number of the removed points: twice
   * when it leaves out two points, never otherwise.
   */
  lemma CodimTwoEven(points: seq<Point>, ps: seq<Point>, ks: seq<set<set<Point>>>, x: set<Point>)
    requires Distinct(ps) && Elems(ps) == Elems(points) && |ks| == |ps|
    requires forall t :: 0 <= t < |ks| ==> (x in ks[t] <==> DropsTwo(points, ps[t], x))
    ensures PySet.Count(x, ks) % 2 == 0
  {
    if exists a, b :: a in points && b in points && a != b && x == Elems(points) - {a, b} {
      var a, b :| a in points && b in points && a != b && x == Elems(points) - {a, b};
      CodimTwoPair(points, ps, ks, x, a, b);
    } else {
      forall t | 0 <= t < |ks| ensures x !in ks[t] {
        assert ps[t] in Elems(points);
      }
      PySet.CountMatches(x, ks, ps, {});
      PySet.CountInNone(ps);
    }
  }

  /** The point of `s` that the face `f` leaves out. */
  ghost function DroppedBy(s: Simplex, f: Simplex): (p: Point)
    requires |s.points| != 1 && f in Faces(s)
    ensures p in s.points && f == Simplex(Without(s.points, p))
  {
    var i :| 0 <= i < |Faces(s)| && Faces(s)[i] == f;
    s.points[i]
  }

  /** For each listed face of `s`, the point it drops. */
  lemma RemovedPoints(s: Simplex, order: seq<Simplex>) returns (ps: seq<Point>)
    requires |s.points| != 1
    requires forall t :: 0 <= t < |order| ==> order[t] in Faces(s)
    ensures |ps| == |order|
    ensures forall t :: 0 <= t < |order| ==> ps[t] in s.points && order[t] == Simplex(Without(s.points, ps[t]))
  {
    ps := seq(|order|, t requires 0 <= t < |order| => DroppedBy(s, order[t]));
  }

  /** Every point of `s` is dropped by one of the listed faces, when they list the chain of its faces. */
  lemma RemovedPointsCover(s: Simplex, order: seq<Simplex>, ps: seq<Point>, a: Point)
    requires Distinct(s.points) && |s.points| >= 2
    requires NewChain(Faces(s)).Ok? && Elems(order) == NewChain(Faces(s)).value.simplices
    requires |ps| == |order|
    requires forall t :: 0 <= t < |order| ==> ps[t] in s.points && order[t] == Simplex(Without(s.points, ps[t]))
    requires a in s.points
    ensures a in ps
  {
    var fs := Faces(s);
    var c := NewChain(fs).value;
    var i :| 0 <= i < |s.points| && s.points[i] == a;
    FacesDropOnePoint(s, i);
    assert fs[i] in fs;
    assert PointSet(fs[i]) in PySet.ListKeys(fs, PointSet);
    var y :| y in c.simplices && PointSet(y) == PointSet(fs[i]);
    var t :| 0 <= t < |order| && order[t] == y;
    assert ps[t] in Elems(s.points);
    assert ps[t] !in PointSet(y);
  }

  /** The listed faces of `s` drop its points, each exactly once, when they list the chain of its faces. */
  lemma DroppedPoints(s: Simplex, order: seq<Simplex>) returns (ps: seq<Point>)
    requires Distinct(s.points) && |s.points| >= 2
    requires NewChain(Faces(s)).Ok?
    requires Distinct(order) && Elems(order) == NewChain(Faces(s)).value.simplices
    ensures |ps| == |order|
    ensures forall t :: 0 <= t < |order| ==> ps[t] in s.points && order[t] == Simplex(Without(s.points, ps[t]))
    ensures Distinct(ps) && Elems(ps) == Elems(s.points)
  {
    var c := NewChain(Faces(s)).value;
    forall t | 0 <= t < |order| ensures order[t] in Faces(s) {
      assert order[t] in c.simplices;
    }
    ps := RemovedPoints(s, order);
    forall a, b | 0 <= a < b < |ps| ensures ps[a] != ps[b] {
      assert order[a] != order[b];
    }
    forall a | a in s.points ensures a in ps {
      RemovedPointsCover(s, order, ps, a);
    }
  }

  /**
   * The chains of faces of the listed faces: each builds, its simplices have two
   * points fewer than `s`, and its point sets drop the face's own point and one
   * more.
   */
  lemma FaceChainsOfFaces(s: Simplex, order: seq<Simplex>, ps: seq<Point>)
    requires Distinct(s.points) && |s.points| >= 3
    requires |ps| == |order|
    requires forall t :: 0 <= t < |order| ==> ps[t] in s.points && order[t] == Simplex(Without(s.points, ps[t]))
    ensures FaceChains(order).Ok?
    ensures forall t :: 0 <= t < |order| ==> AllDim(FaceChains(order).value[t].simplices, |s.points| - 2)
    ensures forall t, x :: 0 <= t < |order| ==>
      (x in PySet.Keys(FaceChains(order).value[t].simplices, PointSet) <==> DropsTwo(s.points, ps[t], x))
  {
    forall t | 0 <= t < |order|
      ensures FaceChain(order[t]).Ok?
      ensures AllDim(FaceChain(order[t]).value.simplices, |s.points| - 2)
      ensures forall x :: x in PySet.Keys(FaceChain(order[t]).value.simplices, PointSet) <==> DropsTwo(s.points, ps[t], x)
    {
      WithoutKeepsDistinct(s.points, ps[t]);
      FacesFormChain(order[t]);
      FaceOfFaceKeys(s.points, ps[t], FaceChain(order[t]).value);
    }
  }

  /**
   * For at least three distinct points, the boundary of the chain of faces is
   * empty: each set of all points but two is a face of exactly two faces, so it
   * cancels in the GF(2) sum.
   */
  lemma LargeFaceChainIsCycle(s: Simplex, order: seq<Simplex>)
    requires Distinct(s.points) && |s.points| >= 3
    requires NewChain(Faces(s)).Ok?
    requires Distinct(order) && Elems(order) == NewChain(Faces(s)).value.simplices
    ensures Boundary(NewChain(Faces(s)).value, order) == Ok(Chain({}))
  {
    var ps := DroppedPoints(s, order);
    FaceChainsOfFaces(s, order, ps);
    var cs := FaceChains(order).value;
    SumKeys(cs, Chain({}), |s.points| - 2);
    var ks := KeySeq(cs);
    var b := Sum(cs, Chain({})).value;
    assert PySet.Keys(Chain({}).simplices, PointSet) == {};
    forall x ensures x !in PySet.Keys(b.simplices, PointSet) {
      CodimTwoEven(s.points, ps, ks, x);
      PySet.FlipParity({}, ks, x);
    }
    PySet.KeysEmpty(b.simplices, PointSet);
  }

  /**
   * The chain of faces of a simplex with distinct points is a cycle, whatever
   * order its set is listed in.
   */
  lemma FaceChainIsCycle(s: Simplex, order: seq<Simplex>)
    requires Distinct(s.points)
    requires NewChain(Faces(s)).Ok?
    requires Distinct(order) && Elems(order) == NewChain(Faces(s)).value.simplices
    ensures Boundary(NewChain(Faces(s)).value, order) == Ok(Chain({}))
    ensures IsCycle(NewChain(Faces(s)).value, order) == Ok(true)
  {
    var c := NewChain(Faces(s)).value;
    if |s.points| >= 3 {
      LargeFaceChainIsCycle(s, order);
    } else {
      FacesFormChain(s);
      PointChainsAreCycles(c, order);
    }
  }
}
