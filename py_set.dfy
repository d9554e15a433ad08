/**
 * Python sets of objects that compare by a key: the cliques and simplices of
 * the modelled code are equal exactly when their point sets are, so a Python
 * set keeps at most one element per point set.  Also the xor-reduction that
 * their `__hash__` methods use.
 */
module PySet {
  import opened Wrappers

  /** `x in s` for a Python set whose elements compare by `key`. */
  predicate Has<T(!new), K(==)>(s: set<T>, x: T, key: T -> K)
  {
    exists y :: y in s && key(y) == key(x)
  }

  /** No two elements of `s` compare equal: what every Python set satisfies. */
  ghost predicate Canonical<T(!new), K>(s: set<T>, key: T -> K)
  {
    forall x, y :: x in s && y in s && key(x) == key(y) ==> x == y
  }

  /** The keys present in `s`. */
  ghost function Keys<T, K>(s: set<T>, key: T -> K): set<K>
  {
    set x | x in s :: key(x)
  }

  /** The keys of a list. */
  ghost function ListKeys<T, K>(s: seq<T>, key: T -> K): set<K>
  {
    set x | x in s :: key(x)
  }

  /**
   * `set(s)`: the elements of the list, where an element equal to an earlier
   * one is not added again.
   */
  function FromList<T(==,!new), K(==)>(s: seq<T>, key: T -> K): (r: set<T>)
    ensures Canonical(r, key)
    ensures r <= Elems(s)
    ensures Keys(r, key) == ListKeys(s, key)
    decreases |s|
  {
    if s == [] then {}
    else
      var prev := FromList(s[..|s| - 1], key);
      assert s == s[..|s| - 1] + [s[|s| - 1]];
      assert ListKeys(s, key) == ListKeys(s[..|s| - 1], key) + {key(s[|s| - 1])};
      if Has(prev, s[|s| - 1], key) then prev else prev + {s[|s| - 1]}
  }

  /**
   * `a ^ b`: the elements of each side that have no equal on the other side.
   * On keys it is the symmetric difference, the sum over GF(2).
   */
  function SymDiff<T(==,!new), K(==)>(a: set<T>, b: set<T>, key: T -> K): (r: set<T>)
    ensures Keys(r, key) == (Keys(a, key) - Keys(b, key)) + (Keys(b, key) - Keys(a, key))
    ensures Canonical(a, key) && Canonical(b, key) ==> Canonical(r, key)
    ensures r <= a + b
  {
    (set x | x in a && !Has(b, x, key)) + (set y | y in b && !Has(a, y, key))
  }

  /** The symmetric difference does not depend on the order of its operands. */
  lemma SymDiffCommutes<T(!new), K>(a: set<T>, b: set<T>, key: T -> K)
    ensures SymDiff(a, b, key) == SymDiff(b, a, key)
  {
  }

  /** Every chain is its own inverse: `a ^ a` is empty. */
  lemma SymDiffSelf<T(!new), K>(a: set<T>, key: T -> K)
    ensures SymDiff(a, a, key) == {}
  {
    forall x | x in a ensures Has(a, x, key) {
      assert key(x) == key(x);
    }
  }

  /** The empty set is the identity of `^`. */
  lemma SymDiffEmpty<T(!new), K>(a: set<T>, key: T -> K)
    ensures SymDiff(a, {}, key) == a
  {
  }

  /**
   * `reduce(op, [h(x) for x in s], z)`: op applied left to right, starting
   * from z.
   */
  function Reduce<T, H>(s: seq<T>, h: T -> H, op: (H, H) -> H, z: H): H
    decreases |s|
  {
    if s == [] then z else op(Reduce(s[..|s| - 1], h, op, z), h(s[|s| - 1]))
  }

  /** The last two operands of op can be swapped, as for xor. */
  ghost predicate RightCommutative<H(!new)>(op: (H, H) -> H)
  {
    forall a, b, c :: op(op(a, b), c) == op(op(a, c), b)
  }

  /** 64-bit xor on bits. */
  function BitXor(a: bv64, b: bv64): bv64
  {
    a ^ b
  }

  /** `operator.xor` on hashes, the function handed to reduce. */
  function Xor(a: bv64, b: bv64): bv64
  {
    BitXor(a, b)
  }

  /** Xor can have its last two operands swapped. */
  lemma XorRightCommutative()
    ensures RightCommutative(Xor)
  {
    forall a: bv64, b: bv64, c: bv64 ensures Xor(Xor(a, b), c) == Xor(Xor(a, c), b) {
      BitXorSwap(a, b, c);
    }
  }

  /** The order in which two values are xored in does not matter. */
  lemma BitXorSwap(a: bv64, b: bv64, c: bv64)
    ensures BitXor(BitXor(a, b), c) == BitXor(BitXor(a, c), b)
  {
    BitXorIs(a, b);
    BitXorIs(a, c);
    BitXorIs(a ^ b, c);
    BitXorIs(a ^ c, b);
    BitSwap(a, b, c);
  }

  /** BitXor is the bit-vector operator. */
  lemma BitXorIs(a: bv64, b: bv64)
    ensures BitXor(a, b) == a ^ b
  {
  }

  /** The identity behind BitXorSwap, on bits. */
  lemma BitSwap(a: bv64, b: bv64, c: bv64)
    ensures (a ^ b) ^ c == (a ^ c) ^ b
  {
  }

  /** The xor of the hashes of a list's elements, `reduce(xor, hashes, 0)`. */
  function XorAll<T>(s: seq<T>, h: T -> bv64): bv64
  {
    Reduce(s, h, Xor, 0)
  }

  /** Taking one element out of a list takes its operand out of the reduction. */
  lemma {:induction false} ReduceRemove<T, H(!new)>(s: seq<T>, i: nat, h: T -> H, op: (H, H) -> H, z: H)
    requires i < |s| && RightCommutative(op)
    ensures Reduce(s, h, op, z) == op(Reduce(s[..i] + s[i + 1..], h, op, z), h(s[i]))
    decreases |s|
  {
    var n := |s| - 1;
    if i < n {
      var p := s[..n];
      var shorter := p[..i] + p[i + 1..];
      ReduceRemove(p, i, h, op, z);
      RemoveBeforeLast(s, i);
      ReduceSnoc(shorter, s[n], h, op, z);
    } else {
      assert s[..i] + s[i + 1..] == s[..n];
    }
  }

  /** Removing an element before the last one commutes with dropping the last one. */
  lemma RemoveBeforeLast<T>(s: seq<T>, i: nat)
    requires i + 1 < |s|
    ensures s[..i] + s[i + 1..] == (s[..|s| - 1][..i] + s[..|s| - 1][i + 1..]) + [s[|s| - 1]]
    ensures s[..|s| - 1][i] == s[i]
  {
  }

  /** Appending an element applies op once more. */
  lemma ReduceSnoc<T, H>(s: seq<T>, x: T, h: T -> H, op: (H, H) -> H, z: H)
    ensures Reduce(s + [x], h, op, z) == op(Reduce(s, h, op, z), h(x))
  {
    assert (s + [x])[..|s|] == s;
  }

  /** With a right-commutative op the reduction depends only on the multiset of elements. */
  lemma {:induction false} ReducePermutation<T, H(!new)>(s: seq<T>, t: seq<T>, h: T -> H, op: (H, H) -> H, z: H)
    requires multiset(s) == multiset(t) && RightCommutative(op)
    ensures Reduce(s, h, op, z) == Reduce(t, h, op, z)
    decreases |s|
  {
    if s != [] {
      var n := |s| - 1;
      var i := MatchLast(s, t);
      ReducePermutation(s[..n], t[..i] + t[i + 1..], h, op, z);
      ReduceRemove(t, i, h, op, z);
    } else {
      assert |t| == |multiset(t)| == 0;
    }
  }

  /** The last element of s sits at some position i of a permutation t; the rest of s is t without it. */
  lemma MatchLast<T>(s: seq<T>, t: seq<T>) returns (i: nat)
    requires multiset(s) == multiset(t) && s != []
    ensures i < |t| && t[i] == s[|s| - 1]
    ensures multiset(s[..|s| - 1]) == multiset(t[..i] + t[i + 1..])
  {
    var n := |s| - 1;
    var x := s[n];
    MultisetRemove(s, n);
    assert s[..n] + s[n + 1..] == s[..n];
    assert x in multiset(t);
    i :| 0 <= i < |t| && t[i] == x;
    MultisetRemove(t, i);
    MultisetCancel(multiset(s[..n]), multiset(t[..i] + t[i + 1..]), x);
  }

  /** Adding the same element to two multisets keeps them apart. */
  lemma MultisetCancel<T>(a: multiset<T>, b: multiset<T>, x: T)
    requires a + multiset{x} == b + multiset{x}
    ensures a == b
  {
    assert forall y :: a[y] == (a + multiset{x})[y] - multiset{x}[y];
  }

  /** The multiset of a list is that of the list without position i, plus its element. */
  lemma MultisetRemove<T>(t: seq<T>, i: nat)
    requires i < |t|
    ensures multiset(t) == multiset(t[..i] + t[i + 1..]) + multiset{t[i]}
  {
    assert t == t[..i] + [t[i]] + t[i + 1..];
  }

  /** Two lists without repeats that hold the same elements have the same hash xor. */
  lemma XorOfSameElements<T>(s: seq<T>, t: seq<T>, h: T -> bv64)
    requires Distinct(s) && Distinct(t)
    requires forall x :: x in s <==> x in t
    ensures XorAll(s, h) == XorAll(t, h)
  {
    forall x ensures multiset(s)[x] == multiset(t)[x] {
      DistinctMultiplicity(s, x);
      DistinctMultiplicity(t, x);
    }
    assert multiset(s) == multiset(t);
    XorRightCommutative();
    ReducePermutation(s, t, h, Xor, 0);
  }

  /** xor with zero gives the other operand back. */
  lemma BitXorZero(x: bv64)
    ensures BitXor(0, x) == x
  {
  }

  /**
   * `reduce(xor, [h(x) for x in s])` with no initial value starts from the first
   * hash; on a non-empty list it agrees with the reduction started from 0.
   */
  lemma {:induction false} ReduceFromFirst<T>(s: seq<T>, h: T -> bv64)
    requires s != []
    ensures Reduce(s[1..], h, Xor, h(s[0])) == XorAll(s, h)
    decreases |s|
  {
    var n := |s| - 1;
    if n == 0 {
      assert s[..0] == [];
      BitXorZero(h(s[0]));
    } else {
      var p := s[..n];
      ReduceFromFirst(p, h);
      assert s[1..][..n - 1] == p[1..];
      assert s[1..][n - 1] == s[n];
      assert p[0] == s[0];
    }
  }

  /** Adding the sets of `ks` in turn to `acc` over GF(2): each one toggles its members. */
  function Flip<K>(acc: set<K>, ks: seq<set<K>>): set<K>
    decreases |ks|
  {
    if ks == [] then acc else Flip((acc - ks[0]) + (ks[0] - acc), ks[1..])
  }

  /** How many of the sets in `ks` hold `x`. */
  function Count<K>(x: K, ks: seq<set<K>>): (r: nat)
    ensures r <= |ks|
    decreases |ks|
  {
    if ks == [] then 0 else (if x in ks[0] then 1 else 0) + Count(x, ks[1..])
  }

  /** A GF(2) sum holds exactly what `acc` and an odd number of the summands disagree on. */
  lemma {:induction false} FlipParity<K>(acc: set<K>, ks: seq<set<K>>, x: K)
    ensures x in Flip(acc, ks) <==> (x in acc) != (Count(x, ks) % 2 == 1)
    decreases |ks|
  {
    if ks != [] {
      FlipParity((acc - ks[0]) + (ks[0] - acc), ks[1..], x);
    }
  }

  /** How many positions of `ps` hold an element of `S`. */
  function CountIn<T>(ps: seq<T>, S: set<T>): (r: nat)
    ensures r <= |ps|
    decreases |ps|
  {
    if ps == [] then 0 else (if ps[0] in S then 1 else 0) + CountIn(ps[1..], S)
  }

  /** No position holds an element of the empty set. */
  lemma {:induction false} CountInNone<T>(ps: seq<T>)
    ensures CountIn(ps, {}) == 0
    decreases |ps|
  {
    if ps != [] {
      CountInNone(ps[1..]);
    }
  }

  /** In a list without repeats, each of two different values is found at most once. */
  lemma {:induction false} CountInTwo<T>(ps: seq<T>, a: T, b: T)
    requires Distinct(ps) && a != b
    ensures CountIn(ps, {a, b}) == (if a in ps then 1 else 0) + (if b in ps then 1 else 0)
    decreases |ps|
  {
    if ps != [] {
      var tail := ps[1..];
      DistinctSlice(ps, 1, |ps|);
      assert ps[1..|ps|] == tail;
      CountInTwo(tail, a, b);
      assert ps[0] !in tail by {
        forall j | 0 <= j < |tail| ensures tail[j] != ps[0] {
          assert tail[j] == ps[j + 1];
        }
      }
      assert forall x :: x in ps <==> x == ps[0] || x in tail;
    }
  }

  /** When `x` is in the t-th set exactly when `ps[t]` is in `S`, the two counts agree. */
  lemma {:induction false} CountMatches<K, T>(x: K, ks: seq<set<K>>, ps: seq<T>, S: set<T>)
    requires |ks| == |ps|
    requires forall t :: 0 <= t < |ks| ==> (x in ks[t] <==> ps[t] in S)
    ensures Count(x, ks) == CountIn(ps, S)
    decreases |ks|
  {
    if ks != [] {
      assert x in ks[0] <==> ps[0] in S;
      forall t | 0 <= t < |ks| - 1 ensures x in ks[1..][t] <==> ps[1..][t] in S {
        assert ks[1..][t] == ks[t + 1] && ps[1..][t] == ps[t + 1];
      }
      CountMatches(x, ks[1..], ps[1..], S);
    }
  }

  /** A set without keys is empty. */
  lemma KeysEmpty<T, K>(s: set<T>, key: T -> K)
    requires Keys(s, key) == {}
    ensures s == {}
  {
    assert forall y :: y in s ==> key(y) in Keys(s, key);
  }
}
