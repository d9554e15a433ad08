/** Optional values and the Python exceptions the modelled code can raise. */
module Wrappers {

  /** `None` in Python, or a present value. */
  datatype Option<T> = None | Some(value: T)

  /** The kinds of exception the modelled code raises on bad input. */
  datatype PyError = ValueError | TypeError | IndexError | KeyError

  /** A computation that either returns a value or raises an exception. */
  datatype Result<T> = Ok(value: T) | Err(error: PyError)

  /** `[f(x) for x in xs]` where each call may raise: the first exception propagates. */
  function MapResult<A, B>(xs: seq<A>, f: A -> Result<B>): (r: Result<seq<B>>)
    ensures r.Ok? <==> forall t :: 0 <= t < |xs| ==> f(xs[t]).Ok?
    ensures r.Ok? ==> |r.value| == |xs| && forall t :: 0 <= t < |xs| ==> f(xs[t]) == Ok(r.value[t])
    ensures r.Err? ==> exists t :: 0 <= t < |xs| && f(xs[t]) == Err(r.error) && forall u :: 0 <= u < t ==> f(xs[u]).Ok?
    decreases |xs|
  {
    if xs == [] then Ok([])
    else
      match f(xs[0])
      case Err(e) => Err(e)
      case Ok(y) =>
        var rest := MapResult(xs[1..], f);
        assert forall t :: 0 < t < |xs| ==> xs[t] == xs[1..][t - 1];
        match rest
        case Err(e) =>
          var t :| 0 <= t < |xs[1..]| && f(xs[1..][t]) == Err(e) && forall u :: 0 <= u < t ==> f(xs[1..][u]).Ok?;
          assert f(xs[t + 1]) == Err(e);
          Err(e)
        case Ok(ys) => Ok([y] + ys)
  }

  /** No element of `s` occurs twice. */
  predicate Distinct<T(==)>(s: seq<T>)
  {
    forall i, j :: 0 <= i < j < |s| ==> s[i] != s[j]
  }

  /** The elements of a sequence, as a set. */
  function Elems<T>(s: seq<T>): set<T>
  {
    set x | x in s
  }

  /** A sequence without repeats has as many elements as its set. */
  lemma {:induction false} DistinctCard<T>(s: seq<T>)
    requires Distinct(s)
    ensures |Elems(s)| == |s|
  {
    if s != [] {
      DistinctCard(s[1..]);
      assert Elems(s) == Elems(s[1..]) + {s[0]};
      assert s[0] !in Elems(s[1..]) by {
        forall j | 0 <= j < |s[1..]| ensures s[1..][j] != s[0] {
          assert s[1..][j] == s[j + 1];
        }
      }
    }
  }

  /** Any sequence has at most as many distinct elements as it is long. */
  lemma {:induction false} ElemsCard<T>(s: seq<T>)
    ensures |Elems(s)| <= |s|
  {
    if s != [] {
      ElemsCard(s[1..]);
      assert Elems(s) == Elems(s[1..]) + {s[0]};
    }
  }

  /** In a sequence without repeats every element occurs once. */
  lemma {:induction false} DistinctMultiplicity<T>(s: seq<T>, x: T)
    requires Distinct(s)
    ensures multiset(s)[x] == if x in s then 1 else 0
  {
    if s != [] {
      assert s == [s[0]] + s[1..];
      assert Distinct(s[1..]) by {
        forall a, b | 0 <= a < b < |s[1..]| ensures s[1..][a] != s[1..][b] {
          assert s[1..][a] == s[a + 1] && s[1..][b] == s[b + 1];
        }
      }
      DistinctMultiplicity(s[1..], x);
      if x == s[0] {
        assert x !in s[1..] by {
          forall j | 0 <= j < |s[1..]| ensures s[1..][j] != x {
            assert s[1..][j] == s[j + 1];
          }
        }
      }
    }
  }

  /** A slice of a sequence without repeats has none either. */
  lemma DistinctSlice<T>(s: seq<T>, lo: nat, hi: nat)
    requires Distinct(s) && lo <= hi <= |s|
    ensures Distinct(s[lo..hi])
  {
    forall a, b | 0 <= a < b < hi - lo ensures s[lo..hi][a] != s[lo..hi][b] {
      assert s[lo..hi][a] == s[lo + a] && s[lo..hi][b] == s[lo + b];
    }
  }

  /** A subset is no larger than its superset. */
  lemma {:induction false} SubsetCard<T>(a: set<T>, b: set<T>)
    requires a <= b
    ensures |a| <= |b|
    decreases |a|
  {
    if a != {} {
      var x :| x in a;
      SubsetCard(a - {x}, b - {x});
    }
  }

  /** `[q for q in points if q != p]`. */
  function Without<T(==,!new)>(points: seq<T>, p: T): (r: seq<T>)
    ensures forall q :: q in r <==> q in points && q != p
    ensures |r| <= |points|
    decreases |points|
  {
    if points == [] then []
    else (if points[0] != p then [points[0]] else []) + Without(points[1..], p)
  }

  /** Removing a point that occurs once from a list without repeats shortens it by one. */
  lemma {:induction false} WithoutDistinct<T(!new)>(points: seq<T>, i: nat)
    requires Distinct(points) && i < |points|
    ensures Without(points, points[i]) == points[..i] + points[i + 1..]
    decreases |points|
  {
    if i > 0 {
      var tail := points[1..];
      assert Distinct(tail) by {
        forall a, b | 0 <= a < b < |tail| ensures tail[a] != tail[b] {
          assert tail[a] == points[a + 1] && tail[b] == points[b + 1];
        }
      }
      assert tail[i - 1] == points[i];
      WithoutDistinct(tail, i - 1);
      assert points[..i] + points[i + 1..] == [points[0]] + (tail[..i - 1] + tail[i..]);
    } else {
      assert points[0] !in points[1..] by {
        forall j | 0 <= j < |points| - 1 ensures points[1..][j] != points[0] {
          assert points[1..][j] == points[j + 1];
        }
      }
      WithoutAbsent(points[1..], points[0]);
    }
  }

  /** Removing a point leaves nothing exactly when every element of the list is that point. */
  lemma {:induction false} WithoutEvery<T(!new)>(points: seq<T>, p: T)
    ensures Without(points, p) == [] <==> forall t :: 0 <= t < |points| ==> points[t] == p
    decreases |points|
  {
    if points != [] {
      WithoutEvery(points[1..], p);
      assert forall t :: 0 < t < |points| ==> points[t] == points[1..][t - 1];
    }
  }

  /** Removing a point that does not occur changes nothing. */
  lemma {:induction false} WithoutAbsent<T(!new)>(points: seq<T>, p: T)
    requires p !in points
    ensures Without(points, p) == points
    decreases |points|
  {
    if points != [] {
      WithoutAbsent(points[1..], p);
    }
  }

  /** Removing a point from a list without repeats leaves a list without repeats, one shorter when the point occurs. */
  lemma {:induction false} WithoutKeepsDistinct<T(!new)>(points: seq<T>, p: T)
    requires Distinct(points)
    ensures Distinct(Without(points, p))
    ensures |Without(points, p)| == if p in points then |points| - 1 else |points|
    decreases |points|
  {
    if points != [] {
      var tail := points[1..];
      DistinctSlice(points, 1, |points|);
      assert points[1..|points|] == tail;
      WithoutKeepsDistinct(tail, p);
      assert points[0] !in tail by {
        forall j | 0 <= j < |tail| ensures tail[j] != points[0] {
          assert tail[j] == points[j + 1];
        }
      }
      assert p in points <==> p == points[0] || p in tail;
      var rest := Without(tail, p);
      if points[0] != p {
        assert Without(points, p) == [points[0]] + rest;
        forall a, b | 0 <= a < b < |rest| + 1 ensures ([points[0]] + rest)[a] != ([points[0]] + rest)[b] {
          if a > 0 {
            assert ([points[0]] + rest)[a] == rest[a - 1];
          } else {
            assert ([points[0]] + rest)[b] in rest;
          }
        }
      } else {
        assert Without(points, p) == rest;
      }
    }
  }

  /** The numbers below `n`. */
  function Below(n: nat): (r: set<nat>)
    ensures |r| == n
    ensures forall x: nat :: x in r <==> x < n
  {
    if n == 0 then {} else Below(n - 1) + {n - 1}
  }

  /** `n` distinct numbers below `n` are all of them: each number below `n` occurs. */
  lemma DistinctBelowCovers(s: seq<nat>, x: nat)
    requires Distinct(s)
    requires forall t :: 0 <= t < |s| ==> s[t] < |s|
    requires x < |s|
    ensures x in s
  {
    DistinctCard(s);
    assert Elems(s) <= Below(|s|);
    assert Elems(s) == Below(|s|) by {
      if Elems(s) != Below(|s|) {
        assert exists y :: y in Below(|s|) && y !in Elems(s);
        var y :| y in Below(|s|) && y !in Elems(s);
        SubsetCard(Elems(s), Below(|s|) - {y});
      }
    }
    assert x in Below(|s|);
  }
}
